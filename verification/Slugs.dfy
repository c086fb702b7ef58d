// Product slugs and normalized names, and the choice of a free slug.
module Slugs {
  import opened Texts

  // ---- characters ----

  predicate IsSlugChar(c: char) {
    'a' <= c <= 'z' || '0' <= c <= '9'
  }

  predicate NotSpace(c: char) {
    !IsSpace(c)
  }

  // ---- strings ----

  predicate IsHyphen(c: char) {
    c == '-'
  }

  function TrimHyphens(s: string): string {
    TrimRight(TrimLeft(s, IsHyphen), IsHyphen)
  }

  // ReplaceAllString of [^a-z0-9]+: each run becomes one rep, put where the run ends.
  function Collapse(s: string, rep: char): (r: string)
    ensures r == "" <==> s == ""
    ensures s != "" ==> r[0] == if IsSlugChar(s[0]) then s[0] else rep
  {
    if s == "" then ""
    else if IsSlugChar(s[0]) then [s[0]] + Collapse(s[1..], rep)
    else if 1 < |s| && !IsSlugChar(s[1]) then Collapse(s[1..], rep)
    else [rep] + Collapse(s[1..], rep)
  }

  // The maximal runs of characters that satisfy p.
  function Runs(s: string, p: char -> bool): (r: seq<string>)
    ensures s != "" && p(s[0]) ==> r != []
  {
    if s == "" then []
    else if !p(s[0]) then Runs(s[1..], p)
    else if 1 < |s| && p(s[1]) then
      var r := Runs(s[1..], p);
      [[s[0]] + r[0]] + r[1..]
    else [[s[0]]] + Runs(s[1..], p)
  }

  // strings.Fields
  function Fields(s: string): seq<string> {
    Runs(s, NotSpace)
  }

  function Join(words: seq<string>, sep: char): string {
    if words == [] then ""
    else if |words| == 1 then words[0]
    else words[0] + [sep] + Join(words[1..], sep)
  }

  function Slugify(name: string): string {
    var s := TrimHyphens(Collapse(ToLower(TrimSpace(name)), '-'));
    if s == "" then "product" else s
  }

  function NormalizeName(name: string): string {
    Join(Fields(Collapse(ToLower(name), ' ')), ' ')
  }

  // ---- slug texts ----

  // Slug characters and single reps between them.
  ghost predicate Collapsed(s: string, rep: char) {
    && (forall i :: 0 <= i < |s| ==> IsSlugChar(s[i]) || s[i] == rep)
    && (forall i, j :: 0 <= i < j < |s| && j == i + 1 ==> IsSlugChar(s[i]) || IsSlugChar(s[j]))
  }

  predicate Bare(s: string) {
    s == "" || (IsSlugChar(s[0]) && IsSlugChar(s[|s| - 1]))
  }

  ghost predicate IsSlug(s: string) {
    s != "" && Collapsed(s, '-') && Bare(s)
  }

  lemma {:induction false} CollapseIsCollapsed(s: string, rep: char)
    ensures Collapsed(Collapse(s, rep), rep)
  {
    if s != "" {
      CollapseIsCollapsed(s[1..], rep);
      var rest := Collapse(s[1..], rep);
      if IsSlugChar(s[0]) {
        CollapsedCons(s[0], rest, rep);
      } else if 1 == |s| || IsSlugChar(s[1]) {
        CollapsedCons(rep, rest, rep);
      }
    }
  }

  lemma CollapsedCons(c: char, rest: string, rep: char)
    requires Collapsed(rest, rep) && (IsSlugChar(c) || c == rep)
    requires rest != "" ==> IsSlugChar(c) || IsSlugChar(rest[0])
    ensures Collapsed([c] + rest, rep)
  {
    var s := [c] + rest;
    forall i, j | 0 <= i < j < |s| && j == i + 1 ensures IsSlugChar(s[i]) || IsSlugChar(s[j]) {
      if 0 < i {
        assert s[i] == rest[i - 1] && s[j] == rest[j - 1];
      }
    }
  }

  lemma {:induction false} CollapseFixes(s: string, rep: char)
    requires Collapsed(s, rep)
    ensures Collapse(s, rep) == s
  {
    if s != "" {
      assert Collapsed(s[1..], rep) by { PartCollapsed(s, rep, 1, |s|); }
      CollapseFixes(s[1..], rep);
      if 1 < |s| {
        assert IsSlugChar(s[0]) || IsSlugChar(s[1]);
      }
    }
  }

  lemma PartCollapsed(s: string, rep: char, i: nat, j: nat)
    requires Collapsed(s, rep) && i <= j <= |s|
    ensures Collapsed(s[i..j], rep)
  {
    var p := s[i..j];
    forall a, b | 0 <= a < b < |p| && b == a + 1 ensures IsSlugChar(p[a]) || IsSlugChar(p[b]) {
      assert p[a] == s[i + a] && p[b] == s[i + b];
    }
  }

  lemma {:induction false} TrimLeftPart(s: string, p: char -> bool)
    ensures exists i :: 0 <= i <= |s| && TrimLeft(s, p) == s[i..]
    ensures TrimLeft(s, p) == "" || !p(TrimLeft(s, p)[0])
  {
    if s != "" && p(s[0]) {
      TrimLeftPart(s[1..], p);
      var i :| 0 <= i <= |s[1..]| && TrimLeft(s[1..], p) == s[1..][i..];
      assert s[1..][i..] == s[i + 1..];
    } else {
      assert s == s[0..];
    }
  }

  lemma {:induction false} TrimRightPart(s: string, p: char -> bool)
    ensures exists i :: 0 <= i <= |s| && TrimRight(s, p) == s[..i]
    ensures TrimRight(s, p) == "" || !p(TrimRight(s, p)[|TrimRight(s, p)| - 1])
  {
    if s != "" && p(s[|s| - 1]) {
      TrimRightPart(s[..|s| - 1], p);
      var i :| 0 <= i <= |s| - 1 && TrimRight(s[..|s| - 1], p) == s[..|s| - 1][..i];
      assert s[..|s| - 1][..i] == s[..i];
    } else {
      assert s == s[..|s|];
    }
  }

  // What TrimHyphens leaves is a part of the text, with no hyphen at either end.
  ghost predicate TrimmedPart(s: string, t: string, i: nat, j: nat) {
    && i <= j <= |s| && t == s[i..j]
    && (t == "" || (!IsHyphen(t[0]) && !IsHyphen(t[|t| - 1])))
  }

  lemma TrimmedEnds(s: string) returns (i: nat, j: nat)
    ensures TrimmedPart(s, TrimHyphens(s), i, j)
  {
    hide TrimLeft, TrimRight, IsHyphen;
    TrimLeftPart(s, IsHyphen);
    var t := TrimLeft(s, IsHyphen);
    i :| 0 <= i <= |s| && t == s[i..];
    TrimRightPart(t, IsHyphen);
    var u := TrimRight(t, IsHyphen);
    var n :| 0 <= n <= |t| && u == t[..n];
    PartOfPart(s, i, n);
    j := i + n;
    if u != "" {
      assert u[0] == t[0];
    }
  }

  lemma PartOfPart(s: string, i: nat, j: nat)
    requires i <= |s| && j <= |s[i..]|
    ensures s[i..][..j] == s[i..i + j]
  {}

  lemma TrimmedIsBare(s: string)
    requires Collapsed(s, '-')
    ensures Collapsed(TrimHyphens(s), '-') && Bare(TrimHyphens(s))
  {
    hide TrimHyphens;
    var i, j := TrimmedEnds(s);
    PartCollapsed(s, '-', i, j);
  }

  lemma SlugifyGivesSlug(name: string)
    ensures IsSlug(Slugify(name))
  {
    var c := Collapse(ToLower(TrimSpace(name)), '-');
    CollapseIsCollapsed(ToLower(TrimSpace(name)), '-');
    TrimmedIsBare(c);
    ProductIsSlug();
  }

  lemma ProductIsSlug()
    ensures IsSlug("product")
  {}

  lemma {:induction false} LowerFixes(s: string)
    requires forall i :: 0 <= i < |s| ==> LowerChar(s[i]) == s[i]
    ensures ToLower(s) == s
  {}

  // The texts Slugify leaves alone are exactly the slugs.
  lemma SlugifyFixes(s: string)
    ensures Slugify(s) == s <==> IsSlug(s)
  {
    SlugifyGivesSlug(s);
    if IsSlug(s) {
      assert TrimSpace(s) == s;
      LowerFixes(s);
      CollapseFixes(s, '-');
      assert TrimHyphens(s) == s;
    }
  }

  lemma SlugifyIdempotent(name: string)
    ensures Slugify(Slugify(name)) == Slugify(name)
  {
    SlugifyGivesSlug(name);
    SlugifyFixes(Slugify(name));
  }

  // ---- words ----

  ghost predicate AreWords(words: seq<string>) {
    forall i :: 0 <= i < |words| ==> IsWord(words[i])
  }

  predicate IsWord(w: string) {
    w != "" && forall i :: 0 <= i < |w| ==> IsSlugChar(w[i])
  }

  lemma {:induction false} RunsAreWords(s: string)
    ensures AreWords(Runs(s, IsSlugChar))
  {
    if s != "" {
      RunsAreWords(s[1..]);
      var r := Runs(s[1..], IsSlugChar);
      if IsSlugChar(s[0]) && 1 < |s| && IsSlugChar(s[1]) {
        var w := [s[0]] + r[0];
        assert IsWord(r[0]);
        assert forall i :: 0 < i < |w| ==> w[i] == r[0][i - 1];
      }
    }
  }

  lemma {:induction false} RunsAgree(s: string, p: char -> bool, q: char -> bool)
    requires forall i :: 0 <= i < |s| ==> p(s[i]) == q(s[i])
    ensures Runs(s, p) == Runs(s, q)
  {
    if s != "" {
      RunsAgree(s[1..], p, q);
    }
  }

  lemma {:induction false} CollapseKeepsWords(s: string, rep: char)
    requires !IsSlugChar(rep)
    ensures Runs(Collapse(s, rep), IsSlugChar) == Runs(s, IsSlugChar)
  {
    if s != "" {
      CollapseKeepsWords(s[1..], rep);
      var c := Collapse(s, rep);
      if IsSlugChar(s[0]) || 1 == |s| || IsSlugChar(s[1]) {
        assert c[1..] == Collapse(s[1..], rep);
      }
    }
  }

  lemma {:induction false} TrimLeftKeepsWords(s: string, p: char -> bool)
    requires forall c: char :: p(c) ==> !IsSlugChar(LowerChar(c))
    ensures Runs(ToLower(TrimLeft(s, p)), IsSlugChar) == Runs(ToLower(s), IsSlugChar)
  {
    if s != "" && p(s[0]) {
      TrimLeftKeepsWords(s[1..], p);
      assert ToLower(s)[1..] == ToLower(s[1..]);
    }
  }

  lemma {:induction false} RunsDropLast(s: string, c: char)
    requires !IsSlugChar(c)
    ensures Runs(s + [c], IsSlugChar) == Runs(s, IsSlugChar)
  {
    if s != "" {
      assert (s + [c])[1..] == s[1..] + [c];
      RunsDropLast(s[1..], c);
    }
  }

  lemma LowerSnoc(s: string, c: char)
    ensures ToLower(s + [c]) == ToLower(s) + [LowerChar(c)]
  {
    hide LowerChar;
  }

  lemma {:induction false} TrimRightKeepsWords(s: string, p: char -> bool)
    requires forall c: char :: p(c) ==> !IsSlugChar(LowerChar(c))
    ensures Runs(ToLower(TrimRight(s, p)), IsSlugChar) == Runs(ToLower(s), IsSlugChar)
  {
    hide LowerChar, IsSlugChar, Runs, ToLower;
    if s != "" && p(s[|s| - 1]) {
      var n := |s| - 1;
      TrimRightKeepsWords(s[..n], p);
      LowerSnoc(s[..n], s[n]);
      assert s == s[..n] + [s[n]];
      RunsDropLast(ToLower(s[..n]), LowerChar(s[n]));
    }
  }

  lemma {:induction false} JoinRuns(s: string, rep: char)
    requires Collapsed(s, rep) && Bare(s) && !IsSlugChar(rep)
    ensures Join(Runs(s, IsSlugChar), rep) == s
  {
    if 1 < |s| {
      if IsSlugChar(s[1]) {
        PartCollapsed(s, rep, 1, |s|);
        JoinRuns(s[1..], rep);
        var r := Runs(s[1..], IsSlugChar);
        assert Join([[s[0]] + r[0]] + r[1..], rep) == [s[0]] + Join(r, rep) by { JoinCons(s[0], r, rep); }
      } else {
        assert IsSlugChar(s[1]) || IsSlugChar(s[2]);
        PartCollapsed(s, rep, 2, |s|);
        JoinRuns(s[2..], rep);
        assert s[1..][1..] == s[2..];
        assert Runs(s[1..], IsSlugChar) == Runs(s[2..], IsSlugChar);
        assert s == [s[0]] + [rep] + s[2..];
      }
    } else if |s| == 1 {
      assert Runs(s[1..], IsSlugChar) == [];
    }
  }

  lemma JoinCons(c: char, r: seq<string>, rep: char)
    requires r != []
    ensures Join([[c] + r[0]] + r[1..], rep) == [c] + Join(r, rep)
  {
    var t := [[c] + r[0]] + r[1..];
    assert t[1..] == r[1..];
    if 1 < |r| {
      assert [c] + r[0] + [rep] + Join(r[1..], rep) == [c] + (r[0] + [rep] + Join(r[1..], rep));
    }
  }

  function Hyphenated(s: string): (r: string)
    ensures |r| == |s| && forall i :: 0 <= i < |s| ==> r[i] == if s[i] == ' ' then '-' else s[i]
  {
    if s == "" then "" else [if s[0] == ' ' then '-' else s[0]] + Hyphenated(s[1..])
  }

  lemma {:induction false} JoinHyphenated(words: seq<string>)
    requires AreWords(words)
    ensures Hyphenated(Join(words, ' ')) == Join(words, '-')
  {
    if words != [] {
      assert IsWord(words[0]);
      assert Hyphenated(words[0]) == words[0];
      if 1 < |words| {
        JoinHyphenated(words[1..]);
        var rest := Join(words[1..], ' ');
        assert Hyphenated(words[0] + [' '] + rest) == words[0] + ['-'] + Hyphenated(rest);
      }
    }
  }

  lemma NormalizeIsJoin(name: string)
    ensures NormalizeName(name) == Join(Runs(ToLower(name), IsSlugChar), ' ')
  {
    var c := Collapse(ToLower(name), ' ');
    CollapseIsCollapsed(ToLower(name), ' ');
    RunsAgree(c, NotSpace, IsSlugChar);
    CollapseKeepsWords(ToLower(name), ' ');
  }

  lemma SlugCoreIsJoin(name: string)
    ensures TrimHyphens(Collapse(ToLower(TrimSpace(name)), '-')) == Join(Runs(ToLower(name), IsSlugChar), '-')
  {
    var l := ToLower(TrimSpace(name));
    var c := Collapse(l, '-');
    CollapseIsCollapsed(l, '-');
    TrimmedIsBare(c);
    JoinRuns(TrimHyphens(c), '-');
    TrimHyphensKeepsWords(c);
    CollapseKeepsWords(l, '-');
    TrimRightKeepsWords(TrimLeft(name, IsSpace), IsSpace);
    TrimLeftKeepsWords(name, IsSpace);
  }

  lemma CollapsedIsLower(s: string)
    requires Collapsed(s, '-')
    ensures ToLower(s) == s
  {
    LowerFixes(s);
  }

  lemma TrimLeftHyphens(s: string)
    requires Collapsed(s, '-')
    ensures Runs(TrimLeft(s, IsHyphen), IsSlugChar) == Runs(s, IsSlugChar)
    ensures Collapsed(TrimLeft(s, IsHyphen), '-')
  {
    hide Runs, TrimLeft, ToLower, Collapsed;
    var t := TrimLeft(s, IsHyphen);
    TrimLeftPart(s, IsHyphen);
    var i :| 0 <= i <= |s| && t == s[i..];
    PartCollapsed(s, '-', i, |s|);
    assert s[i..|s|] == t;
    CollapsedIsLower(s);
    CollapsedIsLower(t);
    TrimLeftKeepsWords(s, IsHyphen);
  }

  lemma TrimHyphensKeepsWords(s: string)
    requires Collapsed(s, '-')
    ensures Runs(TrimHyphens(s), IsSlugChar) == Runs(s, IsSlugChar)
  {
    hide Runs, TrimLeft, TrimRight, ToLower, Collapsed;
    TrimmedIsBare(s);
    TrimLeftHyphens(s);
    CollapsedIsLower(TrimLeft(s, IsHyphen));
    CollapsedIsLower(TrimHyphens(s));
    TrimRightKeepsWords(TrimLeft(s, IsHyphen), IsHyphen);
  }

  // A slug is the normalized name with hyphens for spaces, or "product" for an empty one.
  lemma SlugOfNormalized(name: string)
    ensures Slugify(name) == if NormalizeName(name) == "" then "product" else Hyphenated(NormalizeName(name))
  {
    NormalizeIsJoin(name);
    SlugCoreIsJoin(name);
    RunsAreWords(ToLower(name));
    JoinHyphenated(Runs(ToLower(name), IsSlugChar));
  }

  // ---- which letters stay ----

  // What a character of a name leaves in its slug.
  function Kept(c: char): string {
    if 'a' <= c <= 'z' || '0' <= c <= '9' then [c]
    else if 'A' <= c <= 'Z' then [(c as int + 32) as char]
    else if c == '\U{130}' then "i"
    else if c == '\U{212A}' then "k"
    else ""
  }

  function Letters(s: string): string {
    if s == "" then "" else Kept(s[0]) + Letters(s[1..])
  }

  lemma LettersCons(c: char, s: string)
    ensures Letters([c] + s) == Kept(c) + Letters(s)
  {
    assert ([c] + s)[1..] == s;
  }

  lemma {:induction false} LettersLower(s: string)
    ensures Letters(ToLower(s)) == Letters(s)
    ensures forall i :: 0 <= i < |s| ==> LowerChar(ToLower(s)[i]) == ToLower(s)[i]
  {
    if s != "" {
      LettersLower(s[1..]);
      LettersCons(LowerChar(s[0]), ToLower(s[1..]));
    }
  }

  lemma {:induction false} LettersOfRuns(s: string)
    requires forall i :: 0 <= i < |s| ==> LowerChar(s[i]) == s[i]
    ensures Letters(Join(Runs(s, IsSlugChar), '-')) == Letters(s)
  {
    if s != "" {
      hide Join;
      var rest := Runs(s[1..], IsSlugChar);
      LettersOfRuns(s[1..]);
      LettersCons(s[0], Join(rest, '-'));
      if IsSlugChar(s[0]) && 1 < |s| && IsSlugChar(s[1]) {
        JoinCons(s[0], rest, '-');
      } else if IsSlugChar(s[0]) {
        LettersOfWord(s[0], rest);
      }
    }
  }

  lemma LettersOfWord(c: char, rest: seq<string>)
    ensures Letters(Join([[c]] + rest, '-')) == Kept(c) + Letters(Join(rest, '-'))
  {
    hide Kept;
    var words := [[c]] + rest;
    assert words[1..] == rest;
    LettersCons(c, "");
    if rest != [] {
      var tail := Join(rest, '-');
      LettersCons('-', tail);
      LettersCons(c, ['-'] + tail);
      assert [c] + ['-'] + tail == [c] + (['-'] + tail);
      HyphenGoes();
    }
  }

  lemma HyphenGoes()
    ensures Kept('-') == ""
  {}

  // A slug has the name's letters a to z and digits, capitals in lower case, in their order.
  lemma SlugKeepsLetters(name: string)
    ensures if Letters(name) == "" then Slugify(name) == "product" else Letters(Slugify(name)) == Letters(name)
  {
    hide TrimHyphens, Collapse;
    SlugCoreIsJoin(name);
    LettersLower(name);
    LettersOfRuns(ToLower(name));
    var r := Runs(ToLower(name), IsSlugChar);
    RunsAreWords(ToLower(name));
    if r != [] {
      assert IsWord(r[0]);
      WordHasLetters(r);
    }
  }

  lemma WordHasLetters(words: seq<string>)
    requires words != [] && IsWord(words[0])
    ensures Join(words, '-') != "" && Letters(Join(words, '-')) != ""
  {
    var s := Join(words, '-');
    assert s[0] == words[0][0];
  }
}
