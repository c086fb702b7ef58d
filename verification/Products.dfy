// Creating a product under a slug no other product has.
module Products {
  import opened Sets
  import opened Slugs
  import opened Texts
  import opened Wrappers

  datatype Product = Product(name: string, slug: string)

  datatype CreateError = Conflict

  // ---- decimal suffixes ----

  // strconv.Itoa of a non-negative number
  function Itoa(n: nat): (s: string)
    ensures s != ""
  {
    if n < 10 then [Digit(n)] else Itoa(n / 10) + [Digit(n % 10)]
  }

  lemma {:induction false} ItoaInjective(a: nat, b: nat)
    requires Itoa(a) == Itoa(b)
    ensures a == b
  {
    var s := Itoa(a);
    assert s[|s| - 1] == Digit(a % 10) == Digit(b % 10);
    if 10 <= a && 10 <= b {
      assert Itoa(a / 10) == s[..|s| - 1] == Itoa(b / 10);
      ItoaInjective(a / 10, b / 10);
    }
  }

  // The number a decimal text spells.
  function Number(s: string): int {
    if s == "" then 0 else 10 * Number(s[..|s| - 1]) + (s[|s| - 1] as int - '0' as int)
  }

  // The suffix is the number in decimal, without a leading zero.
  lemma {:induction false} ItoaIsDecimal(n: nat)
    ensures Number(Itoa(n)) == n
    ensures forall i :: 0 <= i < |Itoa(n)| ==> '0' <= Itoa(n)[i] <= '9'
    ensures 0 < n ==> Itoa(n)[0] != '0'
  {
    if n < 10 {
      assert [Digit(n)][..0] == "";
      assert Number("") == 0;
    } else {
      ItoaIsDecimal(n / 10);
      assert Itoa(n)[..|Itoa(n)| - 1] == Itoa(n / 10);
    }
  }

  // The slug tried in lookup n: base, base-2, base-3, ...
  function Candidate(base: string, n: nat): string {
    if n <= 1 then base else base + "-" + Itoa(n)
  }

  lemma CandidatesDiffer(base: string, m: nat, n: nat)
    requires 1 <= m && 1 <= n && Candidate(base, m) == Candidate(base, n)
    ensures m == n
  {
    if 1 < m && 1 < n {
      var s := Candidate(base, m);
      assert s[|base| + 1..] == Itoa(m) && s[|base| + 1..] == Itoa(n);
      ItoaInjective(m, n);
    }
  }

  // ---- the search ends ----

  function SlugSet(rows: seq<Product>): (s: set<string>)
    ensures forall i :: 0 <= i < |rows| ==> rows[i].slug in s
  {
    if rows == [] then {} else SlugSet(rows[..|rows| - 1]) + {rows[|rows| - 1].slug}
  }

  lemma {:induction false} FewSlugs(rows: seq<Product>)
    ensures |SlugSet(rows)| <= |rows|
  {
    if rows != [] {
      FewSlugs(rows[..|rows| - 1]);
    }
  }

  predicate Taken(rows: seq<Product>, slug: string) {
    exists i :: 0 <= i < |rows| && rows[i].slug == slug
  }

  // The first n candidates.
  function Tried(base: string, n: nat): (s: set<string>)
    ensures forall x :: x in s ==> exists m :: 1 <= m <= n && x == Candidate(base, m)
  {
    if n == 0 then {} else Tried(base, n - 1) + {Candidate(base, n)}
  }

  lemma {:induction false} TriedSize(base: string, n: nat)
    ensures |Tried(base, n)| == n
  {
    if n != 0 {
      TriedSize(base, n - 1);
      if Candidate(base, n) in Tried(base, n - 1) {
        var m :| 1 <= m <= n - 1 && Candidate(base, n) == Candidate(base, m);
        CandidatesDiffer(base, n, m);
      }
    }
  }

  // Distinct candidates cannot all be taken by fewer products.
  lemma {:induction false} TriedAreTaken(rows: seq<Product>, base: string, n: nat)
    requires forall m :: 1 <= m <= n ==> Taken(rows, Candidate(base, m))
    ensures n <= |rows|
  {
    TriedSize(base, n);
    FewSlugs(rows);
    forall x | x in Tried(base, n) ensures x in SlugSet(rows) {
      var m :| 1 <= m <= n && x == Candidate(base, m);
      assert Taken(rows, Candidate(base, m));
    }
    SubsetSize(Tried(base, n), SlugSet(rows));
  }

  // The slug asked for, or else the one made from the name.
  function Base(name: string, given: string): string {
    if given == "" then Slugify(TrimSpace(name)) else given
  }

  predicate NameTaken(rows: seq<Product>, name: string) {
    exists i :: 0 <= i < |rows| && rows[i].name == name
  }

  // The products table; names and slugs are UNIQUE.
  class Table {
    var rows: seq<Product>

    ghost predicate Valid()
      reads this
    {
      forall i, j :: 0 <= i < j < |rows| ==> rows[i].slug != rows[j].slug && rows[i].name != rows[j].name
    }

    constructor ()
      ensures Valid() && rows == []
    {
      rows := [];
    }

    // SELECT COUNT(*) FROM products WHERE slug=?
    method Count(slug: string) returns (n: nat)
      ensures n == 0 <==> !Taken(rows, slug)
    {
      n := 0;
      for i := 0 to |rows|
        invariant n == 0 <==> !Taken(rows[..i], slug)
      {
        assert rows[..i + 1] == rows[..i] + [rows[i]];
        assert forall j :: 0 <= j < i ==> rows[..i + 1][j] == rows[..i][j];
        if rows[i].slug == slug {
          n := n + 1;
          assert rows[..i + 1][i].slug == slug;
        }
      }
      assert rows[..|rows|] == rows;
    }

    // INSERT INTO products: refused when the name or the slug is there already.
    method Insert(p: Product) returns (err: Option<CreateError>)
      requires Valid()
      modifies this
      ensures Valid()
      ensures err == if NameTaken(old(rows), p.name) || Taken(old(rows), p.slug) then Some(Conflict) else None
      ensures rows == if err.None? then old(rows) + [p] else old(rows)
    {
      for i := 0 to |rows|
        invariant forall j :: 0 <= j < i ==> rows[j].name != p.name && rows[j].slug != p.slug
        invariant rows == old(rows)
      {
        if rows[i].name == p.name || rows[i].slug == p.slug {
          return Some(Conflict);
        }
      }
      rows := rows + [p];
      return None;
    }

    // CreateProduct: the first free candidate is found within one lookup more than there are
    // products, so the insert fails exactly when the name is taken.
    method CreateProduct(name: string, given: string)
      returns (slug: string, lookups: nat, err: Option<CreateError>)
      requires Valid()
      modifies this
      ensures Valid()
      ensures err == if NameTaken(old(rows), TrimSpace(name)) then Some(Conflict) else None
      ensures rows == if err.None? then old(rows) + [Product(TrimSpace(name), slug)] else old(rows)
      ensures !Taken(old(rows), slug)
      ensures 1 <= lookups <= |old(rows)| + 1
      ensures slug == Candidate(Base(name, given), lookups)
      ensures forall m :: 1 <= m < lookups ==> Taken(old(rows), Candidate(Base(name, given), m))
    {
      var trimmed := TrimSpace(name);
      var base := Base(name, given);
      slug := base;
      lookups := 1;
      var i := 2;
      var n := Count(slug);
      while n != 0
        invariant i == lookups + 1 && 1 <= lookups <= |rows| + 1
        invariant rows == old(rows)
        invariant slug == Candidate(base, lookups)
        invariant n == 0 <==> !Taken(rows, slug)
        invariant forall m :: 1 <= m < lookups ==> Taken(rows, Candidate(base, m))
        decreases |rows| + 2 - lookups
      {
        TriedAreTaken(rows, base, lookups);
        slug := base + "-" + Itoa(i);
        i := i + 1;
        lookups := lookups + 1;
        n := Count(slug);
      }
      err := Insert(Product(trimmed, slug));
    }
  }
}
