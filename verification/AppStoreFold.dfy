// Folding App Store report rows into one row per day and country plus a "*" total.
module AppStoreFold {
  import opened Texts

  // ---- rows as the parser delivers them ----

  datatype Row = Row(
    date: string, territory: string,
    downloads: int, redownloads: int, updates: int, deletions: int, installs: int, crashes: int,
    unknownType: string)

  // The columns of one report line: what ParseReport reads by header name.
  datatype Line = Line(
    date: string, territory: string, event: string, downloadType: string, counts: int,
    downloads: int, redownloads: int, updates: int, installs: int, deletions: int, crashes: int)

  // The switch of ParseReport: an event column wins over a download type, and both
  // over one column per metric.
  function Classify(l: Line): Row {
    var blank := Row(l.date, l.territory, 0, 0, 0, 0, 0, 0, "");
    var et, dt := ToLower(l.event), ToLower(l.downloadType);
    if et != "" then
      if HasPrefix(et, "delet") then blank.(deletions := l.counts) else blank.(installs := l.counts)
    else if dt != "" then
      if HasPrefix(dt, "first") then blank.(downloads := l.counts)
      else if HasPrefix(dt, "redownload") || HasPrefix(dt, "restore") then blank.(redownloads := l.counts)
      else if HasPrefix(dt, "auto-update") || HasPrefix(dt, "manual update") || HasPrefix(dt, "update")
        then blank.(updates := l.counts)
      else blank.(unknownType := l.downloadType)
    else Row(l.date, l.territory, l.downloads, l.redownloads, l.updates, l.deletions, l.installs, l.crashes, "")
  }

  function CountOf(r: Row): int {
    r.downloads + r.redownloads + r.updates + r.deletions + r.installs + r.crashes
  }

  function One(n: int): nat {
    if n == 0 then 0 else 1
  }

  // How many of the six metrics a row counts in.
  function Metrics(r: Row): nat {
    One(r.downloads) + One(r.redownloads) + One(r.updates) + One(r.deletions) + One(r.installs) + One(r.crashes)
  }

  // A line's count lands in exactly one metric, or nowhere with its type kept.
  lemma CountsLandOnce(l: Line)
    requires l.event != "" || l.downloadType != ""
    ensures var r := Classify(l);
      if r.unknownType == "" then CountOf(r) == l.counts && Metrics(r) == One(l.counts)
      else Metrics(r) == 0 && l.event == "" && r.unknownType == l.downloadType
  {
    assert ToLower(l.event) == "" <==> l.event == "";
    assert ToLower(l.downloadType) == "" <==> l.downloadType == "";
  }

  // The text begins with a lower-case word, whatever its letters' case. Unicode lower-cases
  // U+0130 to i and U+212A to k.
  ghost predicate Begins(text: string, word: string) {
    |word| <= |text| && forall i :: 0 <= i < |word| ==>
      || text[i] == word[i]
      || ('a' <= word[i] <= 'z' && text[i] as int == word[i] as int - 32)
      || (word[i] == 'i' && text[i] == '\U{130}')
      || (word[i] == 'k' && text[i] == '\U{212A}')
  }

  // Nothing but capitals is lower-cased to the characters of the report's words.
  predicate IsWordChar(c: char) {
    'a' <= c <= 'z' || c == '-' || c == ' '
  }

  lemma BeginsLower(text: string, word: string)
    requires forall i :: 0 <= i < |word| ==> IsWordChar(word[i])
    ensures HasPrefix(ToLower(text), word) <==> Begins(text, word)
  {
    hide ToLower;
    if Begins(text, word) {
      assert ToLower(text)[..|word|] == word;
    }
    if HasPrefix(ToLower(text), word) {
      forall i | 0 <= i < |word|
        ensures || text[i] == word[i]
                || ('a' <= word[i] <= 'z' && text[i] as int == word[i] as int - 32)
                || (word[i] == 'i' && text[i] == '\U{130}')
                || (word[i] == 'k' && text[i] == '\U{212A}')
      {
        assert ToLower(text)[..|word|][i] == LowerChar(text[i]);
      }
    }
  }

  // Which metric a line with an event counts in.
  lemma EventsExactly(l: Line)
    requires l.event != ""
    ensures Classify(l) ==
      if Begins(l.event, "delet") then Row(l.date, l.territory, 0, 0, 0, l.counts, 0, 0, "")
      else Row(l.date, l.territory, 0, 0, 0, 0, l.counts, 0, "")
  {
    BeginsLower(l.event, "delet");
  }

  // Which metric a line with a download type and no event counts in.
  lemma DownloadTypesExactly(l: Line)
    requires l.event == "" && l.downloadType != ""
    ensures var t, r := l.downloadType, Classify(l);
      && r.date == l.date && r.territory == l.territory && r.deletions == r.installs == r.crashes == 0
      && r.downloads == (if Begins(t, "first") then l.counts else 0)
      && r.redownloads == (if Begins(t, "redownload") || Begins(t, "restore") then l.counts else 0)
      && r.updates == (if Begins(t, "auto-update") || Begins(t, "manual update") || Begins(t, "update")
                       then l.counts else 0)
      && r.unknownType == (if Begins(t, "first") || Begins(t, "redownload") || Begins(t, "restore")
                              || Begins(t, "auto-update") || Begins(t, "manual update") || Begins(t, "update")
                           then "" else t)
  {
    hide Begins, HasPrefix;
    var t := l.downloadType;
    BeginsLower(t, "first");
    BeginsLower(t, "redownload");
    BeginsLower(t, "restore");
    BeginsLower(t, "auto-update");
    BeginsLower(t, "manual update");
    BeginsLower(t, "update");
    FirstLetters(t);
    assert ToLower(l.event) == "";
  }

  // The words begin with different letters, apart from the redownloads'.
  lemma FirstLetters(t: string)
    ensures HasPrefix(ToLower(t), "first") ==> ToLower(t)[0] == 'f'
    ensures HasPrefix(ToLower(t), "redownload") ==> ToLower(t)[0] == 'r'
    ensures HasPrefix(ToLower(t), "restore") ==> ToLower(t)[0] == 'r'
    ensures HasPrefix(ToLower(t), "auto-update") ==> ToLower(t)[0] == 'a'
    ensures HasPrefix(ToLower(t), "manual update") ==> ToLower(t)[0] == 'm'
    ensures HasPrefix(ToLower(t), "update") ==> ToLower(t)[0] == 'u'
  {
    hide ToLower;
    var s := ToLower(t);
    PrefixFirst(s, "first");
    PrefixFirst(s, "redownload");
    PrefixFirst(s, "restore");
    PrefixFirst(s, "auto-update");
    PrefixFirst(s, "manual update");
    PrefixFirst(s, "update");
  }

  lemma PrefixFirst(s: string, p: string)
    requires p != ""
    ensures HasPrefix(s, p) ==> s != "" && s[0] == p[0]
  {
    if HasPrefix(s, p) {
      assert s[..|p|][0] == s[0];
    }
  }

  // A line with neither is read column by column.
  lemma ColumnsExactly(l: Line)
    requires l.event == "" && l.downloadType == ""
    ensures Classify(l) ==
      Row(l.date, l.territory, l.downloads, l.redownloads, l.updates, l.deletions, l.installs, l.crashes, "")
  {}

  // ---- territories ----

  type Letter = c: char | 'A' <= c <= 'Z' witness 'A'

  datatype Code = Code(first: Letter, second: Letter) {
    function Text(): string {
      [first, second]
    }
  }

  // ISO-3166 alpha-2 codes by lower-case name.
  const TERRITORIES: map<string, Code> := map[
    "united states" := Code('U', 'S'), "united kingdom" := Code('G', 'B'), "germany" := Code('D', 'E'),
    "france" := Code('F', 'R'), "poland" := Code('P', 'L'), "italy" := Code('I', 'T'),
    "spain" := Code('E', 'S'), "netherlands" := Code('N', 'L'), "canada" := Code('C', 'A'),
    "australia" := Code('A', 'U'), "japan" := Code('J', 'P'), "china mainland" := Code('C', 'N'),
    "china" := Code('C', 'N'), "india" := Code('I', 'N'), "brazil" := Code('B', 'R'),
    "mexico" := Code('M', 'X'), "russia" := Code('R', 'U'), "sweden" := Code('S', 'E'),
    "norway" := Code('N', 'O'), "denmark" := Code('D', 'K'), "finland" := Code('F', 'I'),
    "switzerland" := Code('C', 'H'), "austria" := Code('A', 'T'), "belgium" := Code('B', 'E'),
    "ireland" := Code('I', 'E'), "portugal" := Code('P', 'T'), "czechia" := Code('C', 'Z'),
    "czech republic" := Code('C', 'Z'), "ukraine" := Code('U', 'A'), "turkey" := Code('T', 'R'),
    "t\U{fc}rkiye" := Code('T', 'R'), "korea, republic of" := Code('K', 'R'), "south korea" := Code('K', 'R'),
    "taiwan" := Code('T', 'W'), "hong kong" := Code('H', 'K'), "singapore" := Code('S', 'G'),
    "new zealand" := Code('N', 'Z'), "south africa" := Code('Z', 'A'), "israel" := Code('I', 'L'),
    "united arab emirates" := Code('A', 'E'), "saudi arabia" := Code('S', 'A'), "argentina" := Code('A', 'R'),
    "chile" := Code('C', 'L'), "colombia" := Code('C', 'O'), "indonesia" := Code('I', 'D'),
    "malaysia" := Code('M', 'Y'), "philippines" := Code('P', 'H'), "thailand" := Code('T', 'H'),
    "vietnam" := Code('V', 'N'), "hungary" := Code('H', 'U'), "romania" := Code('R', 'O'),
    "greece" := Code('G', 'R'), "bulgaria" := Code('B', 'G'), "croatia" := Code('H', 'R'),
    "slovakia" := Code('S', 'K'), "slovenia" := Code('S', 'I'), "lithuania" := Code('L', 'T'),
    "latvia" := Code('L', 'V'), "estonia" := Code('E', 'E'), "belarus" := Code('B', 'Y'),
    "kazakhstan" := Code('K', 'Z'), "egypt" := Code('E', 'G'), "nigeria" := Code('N', 'G'),
    "kenya" := Code('K', 'E'), "pakistan" := Code('P', 'K')]

  predicate IsCode(c: string) {
    |c| == 2 && 'A' <= c[0] <= 'Z' && 'A' <= c[1] <= 'Z'
  }

  // A text of two characters is kept, a known name gets its code, and any other text "ZZ";
  // none is ever taken for the total row "*".
  function Territory(s: string): (c: string)
    ensures |c| == 2 && c != "*"
    ensures var t := TrimSpace(s);
      if |t| == 2 then c == ToUpper(t)
      else IsCode(c) && c == if ToLower(t) in TERRITORIES then TERRITORIES[ToLower(t)].Text() else "ZZ"
  {
    var t := TrimSpace(s);
    if |t| == 2 then ToUpper(t)
    else if ToLower(t) in TERRITORIES then TERRITORIES[ToLower(t)].Text()
    else "ZZ"
  }

  // The text between the outer spaces decides: two characters are put into capitals, a listed
  // name gets its code, and anything else is "ZZ".
  lemma TerritoryExactly(s: string, i: nat, j: nat)
    requires Encloses(s, IsSpace, i, j)
    ensures var c, t := Territory(s), s[i..j];
      if |t| == 2 then
        |c| == 2 && forall k :: 0 <= k < 2 ==> c[k] == if 'a' <= t[k] <= 'z' then (t[k] as int - 32) as char else t[k]
      else c == if ToLower(t) in TERRITORIES then TERRITORIES[ToLower(t)].Text() else "ZZ"
  {
    hide TERRITORIES;
    TrimIs(s, IsSpace, i, j);
  }

  // ---- the fold ----

  datatype Counts = Counts(downloads: int, redownloads: int, updates: int, uninstalls: int, crashes: int)

  const NONE := Counts(0, 0, 0, 0, 0)

  function Add(a: Counts, b: Counts): Counts {
    Counts(a.downloads + b.downloads, a.redownloads + b.redownloads, a.updates + b.updates,
           a.uninstalls + b.uninstalls, a.crashes + b.crashes)
  }

  // What a row contributes; installs are counted as redownloads.
  function CountsOf(r: Row): Counts {
    Counts(r.downloads, r.redownloads + r.installs, r.updates, r.deletions, r.crashes)
  }

  datatype Key = Key(day: string, country: string)

  type Acc = map<Key, Counts>

  predicate Counted(r: Row, from: string) {
    !TextBefore(r.date, from) && r.unknownType == ""
  }

  predicate Unrecognised(r: Row, from: string, t: string) {
    !TextBefore(r.date, from) && r.unknownType == t && t != ""
  }

  // The sum of the counted rows of a day, over all countries or one.
  function SumFor(rows: seq<Row>, from: string, k: Key): Counts {
    if rows == [] then NONE
    else
      var r := rows[|rows| - 1];
      var before := SumFor(rows[..|rows| - 1], from, k);
      if BelongsTo(r, from, k) then Add(before, CountsOf(r)) else before
  }

  // Row r belongs to the output row k.
  predicate BelongsTo(r: Row, from: string, k: Key) {
    Counted(r, from) && r.date == k.day && (k.country == "*" || Territory(r.territory) == k.country)
  }

  function NumUnknown(rows: seq<Row>, from: string, t: string): nat {
    if rows == [] then 0
    else NumUnknown(rows[..|rows| - 1], from, t) + if Unrecognised(rows[|rows| - 1], from, t) then 1 else 0
  }

  // The tally of a type is the number of its rows from the first day on.
  lemma {:induction false} TallyIsNumber(rows: seq<Row>, from: string, t: string)
    ensures NumUnknown(rows, from, t) == |OfType(rows, from, t)|
  {
    if rows != [] {
      var n := |rows| - 1;
      TallyIsNumber(rows[..n], from, t);
      assert OfType(rows, from, t) == OfType(rows[..n], from, t)
        + if !TextBefore(rows[n].date, from) && rows[n].unknownType == t && t != "" then {n} else {};
    }
  }

  function OfType(rows: seq<Row>, from: string, t: string): set<nat> {
    set i: nat | i < |rows| && !TextBefore(rows[i].date, from) && rows[i].unknownType == t && t != ""
  }

  ghost predicate HasRow(rows: seq<Row>, from: string, k: Key) {
    exists i :: 0 <= i < |rows| && BelongsTo(rows[i], from, k)
  }

  // The accumulator after the rows: one entry per day and country seen, and per day.
  ghost predicate IsFold(acc: Acc, rows: seq<Row>, from: string) {
    && (forall k :: k in acc <==> HasRow(rows, from, k))
    && (forall k :: k in acc ==> acc[k] == SumFor(rows, from, k))
  }

  ghost predicate IsTally(unknown: map<string, nat>, rows: seq<Row>, from: string) {
    && (forall t :: t in unknown <==> NumUnknown(rows, from, t) > 0)
    && (forall t :: t in unknown ==> unknown[t] == NumUnknown(rows, from, t))
  }

  function Plus(acc: Acc, k: Key, c: Counts): Acc {
    acc[k := Add(if k in acc then acc[k] else NONE, c)]
  }

  method Accumulate(rows: seq<Row>, from: string) returns (acc: Acc, unknown: map<string, nat>)
    ensures IsFold(acc, rows, from)
    ensures IsTally(unknown, rows, from)
  {
    hide TextBefore, IsFold, IsTally, Territory, CountsOf;
    acc := map[];
    unknown := map[];
    NothingYet(from);
    for i := 0 to |rows|
      invariant IsFold(acc, rows[..i], from)
      invariant IsTally(unknown, rows[..i], from)
    {
      var r := rows[i];
      FoldStep(acc, rows[..i], r, from);
      TallyStep(unknown, rows[..i], r, from);
      assert rows[..i + 1] == rows[..i] + [r];
      if !TextBefore(r.date, from) {
        if r.unknownType != "" {
          unknown := unknown[r.unknownType := (if r.unknownType in unknown then unknown[r.unknownType] else 0) + 1];
        } else {
          var c := Territory(r.territory);
          acc := Plus(acc, Key(r.date, c), CountsOf(r));
          acc := Plus(acc, Key(r.date, "*"), CountsOf(r));
        }
      }
    }
    assert rows[..|rows|] == rows;
  }

  lemma NothingYet(from: string)
    ensures IsFold(map[], [], from) && IsTally(map[], [], from)
  {}

  // Which keys have a counted row, and their sums, after one more row.
  lemma KeysStep(rows: seq<Row>, r: Row, from: string, k: Key)
    ensures HasRow(rows + [r], from, k) <==> HasRow(rows, from, k) || BelongsTo(r, from, k)
    ensures SumFor(rows + [r], from, k) ==
      if BelongsTo(r, from, k) then Add(SumFor(rows, from, k), CountsOf(r)) else SumFor(rows, from, k)
    ensures !HasRow(rows, from, k) ==> SumFor(rows, from, k) == NONE
  {
    hide BelongsTo, CountsOf;
    var all := rows + [r];
    assert all[..|rows|] == rows && all[|rows|] == r;
    if HasRow(rows, from, k) {
      var i :| 0 <= i < |rows| && BelongsTo(rows[i], from, k);
      assert all[i] == rows[i];
    } else {
      NoRows(rows, from, k);
    }
  }

  // What one more row adds to the sums of a day and country: nothing when it is dated before
  // the first day, has an unknown type, or belongs elsewhere.
  lemma SumByRow(rows: seq<Row>, r: Row, from: string, k: Key)
    ensures SumFor([], from, k) == Counts(0, 0, 0, 0, 0)
    ensures var a, b := SumFor(rows, from, k), SumFor(rows + [r], from, k);
      if !TextBefore(r.date, from) && r.unknownType == "" && r.date == k.day
        && (k.country == "*" || Territory(r.territory) == k.country)
      then
        && b.downloads == a.downloads + r.downloads
        && b.redownloads == a.redownloads + r.redownloads + r.installs
        && b.updates == a.updates + r.updates
        && b.uninstalls == a.uninstalls + r.deletions
        && b.crashes == a.crashes + r.crashes
      else b == a
  {
    hide Territory, TextBefore;
    assert (rows + [r])[..|rows|] == rows;
  }

  lemma FoldStep(acc: Acc, rows: seq<Row>, r: Row, from: string)
    requires IsFold(acc, rows, from)
    ensures !Counted(r, from) ==> IsFold(acc, rows + [r], from)
    ensures Counted(r, from) ==>
      IsFold(Plus(Plus(acc, Key(r.date, Territory(r.territory)), CountsOf(r)), Key(r.date, "*"), CountsOf(r)),
        rows + [r], from)
  {
    hide CountsOf, TextBefore, SumFor, HasRow, Counted, Territory;
    forall k
      ensures HasRow(rows + [r], from, k) <==> HasRow(rows, from, k) || BelongsTo(r, from, k)
      ensures SumFor(rows + [r], from, k) ==
        if BelongsTo(r, from, k) then Add(SumFor(rows, from, k), CountsOf(r)) else SumFor(rows, from, k)
      ensures !HasRow(rows, from, k) ==> SumFor(rows, from, k) == NONE
    {
      KeysStep(rows, r, from, k);
    }
  }

  lemma {:induction false} NoRows(rows: seq<Row>, from: string, k: Key)
    requires forall i :: 0 <= i < |rows| ==> !BelongsTo(rows[i], from, k)
    ensures SumFor(rows, from, k) == NONE
  {
    if rows != [] {
      NoRows(rows[..|rows| - 1], from, k);
    }
  }

  lemma TallyStep(unknown: map<string, nat>, rows: seq<Row>, r: Row, from: string)
    requires IsTally(unknown, rows, from)
    ensures (TextBefore(r.date, from) || r.unknownType == "") ==> IsTally(unknown, rows + [r], from)
    ensures !TextBefore(r.date, from) && r.unknownType != "" ==>
      IsTally(unknown[r.unknownType := (if r.unknownType in unknown then unknown[r.unknownType] else 0) + 1],
        rows + [r], from)
  {
    assert (rows + [r])[..|rows|] == rows;
  }

  // ---- the total row is the sum of its country rows ----

  // The entries of a day summed over a set of countries.
  ghost function SumCountries(acc: Acc, day: string, countries: set<string>): Counts
    requires forall c :: c in countries ==> Key(day, c) in acc
  {
    if countries == {} then NONE
    else
      var c :| c in countries;
      Add(acc[Key(day, c)], SumCountries(acc, day, countries - {c}))
  }

  ghost function SumOver(rows: seq<Row>, from: string, day: string, countries: set<string>): Counts {
    if countries == {} then NONE
    else
      var c :| c in countries;
      Add(SumFor(rows, from, Key(day, c)), SumOver(rows, from, day, countries - {c}))
  }

  lemma AddLaws(a: Counts, b: Counts, c: Counts)
    ensures Add(a, b) == Add(b, a) && Add(Add(a, b), c) == Add(a, Add(b, c)) && Add(a, NONE) == a
  {}

  // The order in which the countries are added does not matter.
  lemma {:induction false} TakeCountry(rows: seq<Row>, from: string, day: string, countries: set<string>, c: string)
    requires c in countries
    ensures SumOver(rows, from, day, countries) ==
      Add(SumFor(rows, from, Key(day, c)), SumOver(rows, from, day, countries - {c}))
  {
    hide SumFor, Add;
    var d :| d in countries && SumOver(rows, from, day, countries) ==
      Add(SumFor(rows, from, Key(day, d)), SumOver(rows, from, day, countries - {d}));
    if c != d {
      TakeCountry(rows, from, day, countries - {d}, c);
      TakeCountry(rows, from, day, countries - {c}, d);
      assert countries - {c} - {d} == countries - {d} - {c};
      var x, y, z := SumFor(rows, from, Key(day, c)), SumFor(rows, from, Key(day, d)),
        SumOver(rows, from, day, countries - {c} - {d});
      AddLaws(x, y, z);
      AddLaws(y, x, z);
    }
  }

  // One more row goes to at most one of the countries.
  lemma {:induction false} SumOverStep(rows: seq<Row>, r: Row, from: string, day: string, countries: set<string>)
    requires "*" !in countries
    ensures SumOver(rows + [r], from, day, countries) ==
      if Counted(r, from) && r.date == day && Territory(r.territory) in countries
      then Add(SumOver(rows, from, day, countries), CountsOf(r)) else SumOver(rows, from, day, countries)
  {
    hide SumFor, Territory, CountsOf, Counted, Add;
    if countries != {} {
      var t := Territory(r.territory);
      var c :| c in countries && (t in countries ==> c == t);
      TakeCountry(rows + [r], from, day, countries, c);
      TakeCountry(rows, from, day, countries, c);
      SumOverStep(rows, r, from, day, countries - {c});
      KeysStep(rows, r, from, Key(day, c));
      var x, y, z := SumFor(rows, from, Key(day, c)), SumOver(rows, from, day, countries - {c}), CountsOf(r);
      AddLaws(x, z, y);
      AddLaws(z, y, x);
      AddLaws(x, y, z);
    }
  }

  lemma {:induction false} DayTotal(rows: seq<Row>, from: string, day: string, countries: set<string>)
    requires "*" !in countries
    requires forall i :: 0 <= i < |rows| && Counted(rows[i], from) && rows[i].date == day ==>
      Territory(rows[i].territory) in countries
    ensures SumOver(rows, from, day, countries) == SumFor(rows, from, Key(day, "*"))
  {
    hide Territory, CountsOf, Counted;
    if rows == [] {
      EmptyTotal(from, day, countries);
    } else {
      var n := |rows| - 1;
      DayTotal(rows[..n], from, day, countries);
      assert rows == rows[..n] + [rows[n]];
      SumOverStep(rows[..n], rows[n], from, day, countries);
    }
  }

  lemma {:induction false} EmptyTotal(from: string, day: string, countries: set<string>)
    ensures SumOver([], from, day, countries) == NONE
  {
    if countries != {} {
      var c :| c in countries;
      TakeCountry([], from, day, countries, c);
      EmptyTotal(from, day, countries - {c});
    }
  }

  lemma {:induction false} SumsAgree(acc: Acc, rows: seq<Row>, from: string, day: string, countries: set<string>)
    requires IsFold(acc, rows, from) && forall c :: c in countries ==> Key(day, c) in acc
    ensures SumCountries(acc, day, countries) == SumOver(rows, from, day, countries)
  {
    hide SumFor, Add;
    if countries != {} {
      var c :| c in countries && SumCountries(acc, day, countries) ==
        Add(acc[Key(day, c)], SumCountries(acc, day, countries - {c}));
      SumsAgree(acc, rows, from, day, countries - {c});
      TakeCountry(rows, from, day, countries, c);
    }
  }

  // The countries that have an entry for a day.
  function CountriesOf(acc: Acc, day: string): set<string> {
    set k | k in acc && k.day == day && k.country != "*" :: k.country
  }

  // Conservation: each day's total row is the sum of its country rows, and of the
  // counted input rows of that day.
  lemma TotalIsSumOfCountries(acc: Acc, rows: seq<Row>, from: string, day: string)
    requires IsFold(acc, rows, from) && Key(day, "*") in acc
    ensures acc[Key(day, "*")] == SumCountries(acc, day, CountriesOf(acc, day))
    ensures acc[Key(day, "*")] == SumFor(rows, from, Key(day, "*"))
  {
    hide SumFor, Territory, SumCountries, SumOver;
    var countries := CountriesOf(acc, day);
    forall i | 0 <= i < |rows| && Counted(rows[i], from) && rows[i].date == day
      ensures Territory(rows[i].territory) in countries
    {
      var k := Key(day, Territory(rows[i].territory));
      assert BelongsTo(rows[i], from, k);
      assert k in acc;
    }
    DayTotal(rows, from, day, countries);
    SumsAgree(acc, rows, from, day, countries);
  }

  // ---- the order of the rows does not matter ----

  lemma {:induction false} SumInsert(a: seq<Row>, x: Row, b: seq<Row>, from: string, k: Key)
    ensures SumFor(a + [x] + b, from, k) ==
      if BelongsTo(x, from, k) then Add(SumFor(a + b, from, k), CountsOf(x)) else SumFor(a + b, from, k)
  {
    hide BelongsTo, CountsOf;
    if b == [] {
      assert a + [x] + b == a + [x] && a + b == a;
      KeysStep(a, x, from, k);
    } else {
      var init, last := b[..|b| - 1], b[|b| - 1];
      SumInsert(a, x, init, from, k);
      assert a + [x] + b == (a + [x] + init) + [last] && a + b == (a + init) + [last];
      KeysStep(a + [x] + init, last, from, k);
      KeysStep(a + init, last, from, k);
    }
  }

  lemma {:induction false} UnknownInsert(a: seq<Row>, x: Row, b: seq<Row>, from: string, t: string)
    ensures NumUnknown(a + [x] + b, from, t) == NumUnknown(a + b, from, t) + if Unrecognised(x, from, t) then 1 else 0
  {
    hide Unrecognised;
    if b == [] {
      assert (a + [x] + b)[..|a|] == a && a + b == a;
    } else {
      var init := b[..|b| - 1];
      UnknownInsert(a, x, init, from, t);
      assert (a + [x] + b)[..|a| + |b|] == a + [x] + init && (a + b)[..|a| + |b| - 1] == a + init;
    }
  }

  // Rows at the other end of a permutation.
  lemma Locate(p: seq<Row>, q: seq<Row>) returns (a: seq<Row>, b: seq<Row>)
    requires p != [] && multiset(p) == multiset(q)
    ensures q == a + [p[|p| - 1]] + b
    ensures multiset(p[..|p| - 1]) == multiset(a + b)
  {
    var init, x := p[..|p| - 1], p[|p| - 1];
    assert p == init + [x];
    assert x in multiset(q);
    var i :| 0 <= i < |q| && q[i] == x;
    a, b := q[..i], q[i + 1..];
    assert q == a + [x] + b;
    TakeOne(init, x, a, b);
  }

  lemma TakeOne<T>(init: seq<T>, x: T, a: seq<T>, b: seq<T>)
    requires multiset(init + [x]) == multiset(a + [x] + b)
    ensures multiset(init) == multiset(a + b)
  {
    assert multiset(init + [x]) - multiset{x} == multiset(init);
    assert multiset(a + [x] + b) - multiset{x} == multiset(a) + multiset(b);
  }

  lemma {:induction false} SumPermuted(p: seq<Row>, q: seq<Row>, from: string, k: Key, t: string)
    requires multiset(p) == multiset(q)
    ensures SumFor(p, from, k) == SumFor(q, from, k)
    ensures NumUnknown(p, from, t) == NumUnknown(q, from, t)
    decreases |p|
  {
    hide BelongsTo, CountsOf, Unrecognised;
    if p == [] {
      assert multiset(q) == multiset{};
      assert q == [];
    } else {
      var a, b := Locate(p, q);
      SumPermuted(p[..|p| - 1], a + b, from, k, t);
      SumInsert(a, p[|p| - 1], b, from, k);
      UnknownInsert(a, p[|p| - 1], b, from, t);
    }
  }

  lemma RowPermuted(p: seq<Row>, q: seq<Row>, from: string, k: Key)
    requires multiset(p) == multiset(q) && HasRow(p, from, k)
    ensures HasRow(q, from, k)
  {
    var i :| 0 <= i < |p| && BelongsTo(p[i], from, k);
    assert p[i] in multiset(q);
    var j :| 0 <= j < |q| && q[j] == p[i];
  }

  // A permuted report folds to the same map and the same tally.
  lemma FoldIgnoresOrder(p: seq<Row>, q: seq<Row>, from: string, a: Acc, b: Acc,
                         u: map<string, nat>, v: map<string, nat>)
    requires multiset(p) == multiset(q)
    requires IsFold(a, p, from) && IsFold(b, q, from) && IsTally(u, p, from) && IsTally(v, q, from)
    ensures a == b && u == v
  {
    hide SumFor, NumUnknown, HasRow;
    forall k ensures k in a <==> k in b {
      if HasRow(p, from, k) { RowPermuted(p, q, from, k); }
      if HasRow(q, from, k) { RowPermuted(q, p, from, k); }
    }
    forall k | k in a ensures a[k] == b[k] {
      SumPermuted(p, q, from, k, "");
    }
    forall t ensures NumUnknown(p, from, t) == NumUnknown(q, from, t) {
      SumPermuted(p, q, from, Key("", ""), t);
    }
    assert u == v;
  }

  // ---- the output rows ----

  datatype MetricDay = MetricDay(app: int, key: Key, counts: Counts)

  // One output row per entry, in no particular order.
  ghost predicate Lists(out: seq<MetricDay>, app: int, acc: Acc) {
    && (forall i :: 0 <= i < |out| ==> out[i].app == app && out[i].key in acc && out[i].counts == acc[out[i].key])
    && (forall i, j :: 0 <= i < j < |out| ==> out[i].key != out[j].key)
    && (forall k :: k in acc ==> exists i :: 0 <= i < |out| && out[i].key == k)
  }

  lemma ListsStep(out: seq<MetricDay>, app: int, acc: Acc, left: set<Key>, k: Key)
    requires Lists(out, app, map k | k in acc && k !in left :: acc[k])
    requires k in left && k in acc
    ensures Lists(out + [MetricDay(app, k, acc[k])], app, map q | q in acc && q !in left - {k} :: acc[q])
  {
    var longer := out + [MetricDay(app, k, acc[k])];
    forall q | q in acc && q !in left - {k} ensures exists i :: 0 <= i < |longer| && longer[i].key == q {
      if q == k {
        assert longer[|out|].key == k;
      } else {
        var done := map q | q in acc && q !in left :: acc[q];
        assert q in done;
        var i :| 0 <= i < |out| && out[i].key == q;
        assert longer[i].key == q;
      }
    }
  }

  method ToMetricDays(app: int, rows: seq<Row>, from: string) returns (out: seq<MetricDay>, unknown: map<string, nat>)
    ensures exists acc :: IsFold(acc, rows, from) && Lists(out, app, acc)
    ensures IsTally(unknown, rows, from)
  {
    hide IsFold, IsTally;
    var acc;
    acc, unknown := Accumulate(rows, from);
    out := [];
    var left := acc.Keys;
    while left != {}
      invariant left <= acc.Keys
      invariant Lists(out, app, map k | k in acc && k !in left :: acc[k])
      decreases |left|
    {
      var k :| k in left;
      ListsStep(out, app, acc, left, k);
      out := out + [MetricDay(app, k, acc[k])];
      left := left - {k};
    }
    assert (map k | k in acc && k !in left :: acc[k]) == acc;
  }
}
