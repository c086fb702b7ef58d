// The login rate limiter: a sliding window per key, compacted in place.
module RateLimiter {
  // A call that was let through.
  datatype Admission = Admission(key: string, at: int)

  // A Go slice: the first len entries of its backing array.
  datatype Slice = Slice(data: array<int>, len: nat)

  // The entries later than cut.
  function After(s: seq<int>, cut: int): seq<int> {
    if s == [] then []
    else if s[|s| - 1] > cut then After(s[..|s| - 1], cut) + [s[|s| - 1]]
    else After(s[..|s| - 1], cut)
  }

  // The admission times of one key.
  function Times(log: seq<Admission>, key: string): seq<int> {
    if log == [] then []
    else if log[|log| - 1].key == key then Times(log[..|log| - 1], key) + [log[|log| - 1].at]
    else Times(log[..|log| - 1], key)
  }

  // Admissions of a key in the half-open interval (from, to].
  function CountIn(log: seq<Admission>, key: string, from: int, to: int): nat {
    if log == [] then 0
    else
      var a := log[|log| - 1];
      CountIn(log[..|log| - 1], key, from, to) + if a.key == key && from < a.at <= to then 1 else 0
  }

  // The count is the number of such admissions in the log.
  lemma {:induction false} CountIsNumber(log: seq<Admission>, key: string, from: int, to: int)
    ensures CountIn(log, key, from, to) == |InWindow(log, key, from, to)|
  {
    if log != [] {
      var n := |log| - 1;
      CountIsNumber(log[..n], key, from, to);
      assert InWindow(log, key, from, to) == InWindow(log[..n], key, from, to)
        + if log[n].key == key && from < log[n].at <= to then {n} else {};
    }
  }

  function InWindow(log: seq<Admission>, key: string, from: int, to: int): set<nat> {
    set i: nat | i < |log| && log[i].key == key && from < log[i].at <= to
  }

  // ---- the window bound ----

  ghost predicate InOrder(log: seq<Admission>, last: int) {
    && (forall i, j :: 0 <= i < j < |log| ==> log[i].at <= log[j].at)
    && (forall i :: 0 <= i < |log| ==> log[i].at <= last)
  }

  ghost predicate RightlyAdmitted(log: seq<Admission>, i: nat, max: int, window: int)
    requires i < |log|
  {
    CountIn(log[..i], log[i].key, log[i].at - window, log[i].at) < max
  }

  // Every admission found fewer than max earlier ones of its key in the window before it.
  ghost predicate Limited(log: seq<Admission>, max: int, window: int) {
    forall i :: 0 <= i < |log| ==> RightlyAdmitted(log, i, max, window)
  }

  // A later start and a later end count no more, once nothing is after the earlier end.
  lemma {:induction false} CountNarrows(log: seq<Admission>, key: string, from: int, to: int, from': int, to': int)
    requires from' <= from
    requires forall i :: 0 <= i < |log| ==> log[i].at <= to'
    ensures CountIn(log, key, from, to) <= CountIn(log, key, from', to')
  {
    if log != [] {
      var n := |log| - 1;
      assert forall i :: 0 <= i < n ==> log[..n][i] == log[i];
      CountNarrows(log[..n], key, from, to, from', to');
    }
  }

  // No interval of the window's length holds more than max admissions of a key.
  lemma {:induction false} WindowBound(log: seq<Admission>, last: int, max: int, window: int, key: string, t: int)
    requires 0 <= max && InOrder(log, last) && Limited(log, max, window)
    ensures CountIn(log, key, t - window, t) <= max
  {
    if log != [] {
      var n := |log| - 1;
      var a := log[n];
      if a.key == key && a.at <= t {
        CountNarrows(log[..n], key, t - window, t, a.at - window, a.at);
        assert RightlyAdmitted(log, n, max, window);
      } else {
        PrefixLimited(log, last, max, window);
        WindowBound(log[..n], last, max, window, key, t);
      }
    }
  }

  lemma PrefixLimited(log: seq<Admission>, last: int, max: int, window: int)
    requires log != [] && InOrder(log, last) && Limited(log, max, window)
    ensures InOrder(log[..|log| - 1], last) && Limited(log[..|log| - 1], max, window)
  {
    var p := log[..|log| - 1];
    forall i | 0 <= i < |p| ensures RightlyAdmitted(p, i, max, window) {
      assert RightlyAdmitted(log, i, max, window);
      assert p[..i] == log[..i];
    }
  }

  lemma Admit(log: seq<Admission>, last: int, max: int, window: int, key: string, now: int)
    requires InOrder(log, last) && Limited(log, max, window) && last <= now
    requires CountIn(log, key, now - window, now) < max
    ensures InOrder(log + [Admission(key, now)], now) && Limited(log + [Admission(key, now)], max, window)
  {
    var all := log + [Admission(key, now)];
    forall i | 0 <= i < |all| ensures RightlyAdmitted(all, i, max, window) {
      if i < |log| {
        assert RightlyAdmitted(log, i, max, window);
      }
      assert all[..i] == log[..i];
    }
  }

  // The calls let through when each is judged on all earlier admissions.
  function Run(calls: seq<Admission>, max: int, window: int): seq<Admission> {
    if calls == [] then []
    else
      var log, c := Run(calls[..|calls| - 1], max, window), calls[|calls| - 1];
      if CountIn(log, c.key, c.at - window, c.at) < max then log + [c] else log
  }

  lemma {:induction false} RunIsLimited(calls: seq<Admission>, last: int, max: int, window: int)
    requires InOrder(calls, last)
    ensures InOrder(Run(calls, max, window), last) && Limited(Run(calls, max, window), max, window)
  {
    hide Limited, InOrder, CountIn;
    if calls == [] {
      NothingIsLimited(last, max, window);
    } else {
      var n := |calls| - 1;
      var log, c := Run(calls[..n], max, window), calls[n];
      EarlierInOrder(calls, last);
      RunIsLimited(calls[..n], c.at, max, window);
      LaterOrder(log, c.at, last);
      if CountIn(log, c.key, c.at - window, c.at) < max {
        Admit(log, c.at, max, window, c.key, c.at);
        LaterOrder(log + [c], c.at, last);
      }
    }
  }

  lemma EarlierInOrder(calls: seq<Admission>, last: int)
    requires calls != [] && InOrder(calls, last)
    ensures InOrder(calls[..|calls| - 1], calls[|calls| - 1].at) && calls[|calls| - 1].at <= last
  {}

  lemma NothingIsLimited(last: int, max: int, window: int)
    ensures InOrder([], last) && Limited([], max, window)
  {}

  // However the calls come, no interval of the window's length admits more than max of a key.
  lemma RunBound(calls: seq<Admission>, last: int, max: int, window: int, key: string, t: int)
    requires 0 <= max && InOrder(calls, last)
    ensures CountIn(Run(calls, max, window), key, t - window, t) <= max
  {
    RunIsLimited(calls, last, max, window);
    WindowBound(Run(calls, max, window), last, max, window, key, t);
  }

  // ---- compaction keeps what the window needs ----

  lemma {:induction false} AfterAfter(s: seq<int>, cut: int, c: int)
    requires cut <= c
    ensures After(After(s, cut), c) == After(s, c)
  {
    if s != [] {
      var n := |s| - 1;
      AfterAfter(s[..n], cut, c);
      AfterSnoc(After(s[..n], cut), s[n], c);
    }
  }

  lemma AfterSnoc(s: seq<int>, x: int, c: int)
    ensures After(s + [x], c) == if x > c then After(s, c) + [x] else After(s, c)
  {
    assert (s + [x])[..|s|] == s;
  }

  lemma TimesSnoc(log: seq<Admission>, a: Admission, key: string)
    ensures Times(log + [a], key) == if a.key == key then Times(log, key) + [a.at] else Times(log, key)
  {
    assert (log + [a])[..|log|] == log;
  }

  // The window's entries are as many as the admissions it holds.
  lemma {:induction false} CountIsAfter(log: seq<Admission>, key: string, from: int, to: int)
    requires forall i :: 0 <= i < |log| ==> log[i].at <= to
    ensures CountIn(log, key, from, to) == |After(Times(log, key), from)|
  {
    if log != [] {
      var n := |log| - 1;
      assert forall i :: 0 <= i < n ==> log[..n][i] == log[i];
      CountIsAfter(log[..n], key, from, to);
      AfterSnoc(Times(log[..n], key), log[n].at, from);
    }
  }

  // Entries agree with the key's admissions as far back as the window can still reach.
  ghost predicate Remembers(entries: seq<int>, log: seq<Admission>, key: string, reach: int) {
    forall c :: reach <= c ==> After(entries, c) == After(Times(log, key), c)
  }

  lemma RememberLess(entries: seq<int>, log: seq<Admission>, key: string, reach: int, later: int)
    requires Remembers(entries, log, key, reach) && reach <= later
    ensures Remembers(entries, log, key, later)
  {}

  lemma RememberCompacted(entries: seq<int>, log: seq<Admission>, key: string, reach: int, cut: int)
    requires Remembers(entries, log, key, reach) && reach <= cut
    ensures Remembers(After(entries, cut), log, key, cut)
  {
    forall c | cut <= c ensures After(After(entries, cut), c) == After(Times(log, key), c) {
      AfterAfter(entries, cut, c);
    }
  }

  lemma RememberAdmitted(entries: seq<int>, log: seq<Admission>, key: string, reach: int, now: int)
    requires Remembers(entries, log, key, reach)
    ensures Remembers(entries + [now], log + [Admission(key, now)], key, reach)
  {
    TimesSnoc(log, Admission(key, now), key);
    forall c | reach <= c ensures After(entries + [now], c) == After(Times(log, key) + [now], c) {
      AfterSnoc(entries, now, c);
      AfterSnoc(Times(log, key), now, c);
    }
  }

  lemma RememberOther(entries: seq<int>, log: seq<Admission>, key: string, reach: int, a: Admission)
    requires Remembers(entries, log, key, reach) && a.key != key
    ensures Remembers(entries, log + [a], key, reach)
  {
    TimesSnoc(log, a, key);
  }

  // ---- the limiter ----

  // Moves the entries after cut to the front of the same array; the entries still to be read
  // are the old ones throughout.
  method Compact(data: array<int>, len: nat, cut: int) returns (n: nat)
    requires len <= data.Length
    modifies data
    ensures n <= len && data[..n] == After(old(data[..len]), cut)
    ensures data[n..] == old(data[n..])
  {
    n := 0;
    for i := 0 to len
      invariant n <= i
      invariant data[..n] == After(old(data[..i]), cut)
      invariant data[n..] == old(data[n..])
    {
      ghost var kept := data[..n];
      assert data[i] == old(data[i]) by {
        assert data[n..][i - n] == old(data[n..])[i - n];
      }
      AfterSnoc(old(data[..i]), old(data[i]), cut);
      assert old(data[..i + 1]) == old(data[..i]) + [old(data[i])];
      if data[i] > cut {
        ghost var rest := data[n + 1..];
        assert rest == old(data[n + 1..]) by {
          assert rest == data[n..][1..] && old(data[n + 1..]) == old(data[n..])[1..];
        }
        data[n] := data[i];
        n := n + 1;
        assert data[..n] == kept + [data[n - 1]];
      }
    }
  }

  class RateLimiter {
    const max: int
    const window: int
    var hits: map<string, Slice>
    ghost var log: seq<Admission>
    ghost var last: int

    constructor (max: int, window: int, ghost start: int)
      ensures Valid() && Arrays() == {}
      ensures this.max == max && this.window == window && log == [] && last == start
    {
      this.max, this.window := max, window;
      hits := map[];
      log, last := [], start;
    }

    ghost function Arrays(): set<array<int>>
      reads this
    {
      set k | k in hits :: hits[k].data
    }

    // Every key has its own array.
    ghost predicate Separate()
      reads this, Arrays()
    {
      && (forall k :: k in hits ==> hits[k].len <= hits[k].data.Length)
      && (forall j, k :: j in hits && k in hits && j != k ==> hits[j].data != hits[k].data)
    }

    ghost function Entries(key: string): seq<int>
      requires Separate()
      reads this, Arrays()
    {
      if key in hits then hits[key].data[..hits[key].len] else []
    }

    ghost predicate Valid()
      reads this, Arrays()
    {
      && Separate()
      && InOrder(log, last) && Limited(log, max, window)
      && forall k :: Remembers(Entries(k), log, k, last - window)
    }

    // The entries of a key later than cut, at the front of its array.
    method Recent(key: string, cut: int) returns (data: array<int>, n: nat)
      requires Separate()
      modifies Arrays()
      ensures n <= data.Length && data[..n] == After(old(Entries(key)), cut)
      ensures if key in hits then data == hits[key].data else fresh(data)
      ensures forall k :: k in hits && k != key ==> hits[k].data != data
      ensures forall k :: k != key ==> Entries(k) == old(Entries(k))
    {
      hide After;
      if key in hits {
        data := hits[key].data;
        n := Compact(data, hits[key].len, cut);
      } else {
        data := new int[0];
        n := 0;
        AfterNothing(cut);
      }
    }

    method SetEntries(key: string, data: array<int>, n: nat)
      requires Separate() && n <= data.Length
      requires forall k :: k in hits && k != key ==> hits[k].data != data
      modifies this`hits
      ensures Separate() && hits == old(hits)[key := Slice(data, n)]
      ensures Entries(key) == data[..n]
      ensures forall k :: k != key ==> Entries(k) == old(Entries(k))
    {
      hits := hits[key := Slice(data, n)];
    }

    // The entries after a call: compacted, and with the new time when there is room for it.
    method Update(key: string, now: int) returns (ok: bool)
      requires Separate()
      modifies this`hits, Arrays()
      ensures Separate() && fresh(Arrays() - old(Arrays()))
      ensures ok == (|After(old(Entries(key)), now - window)| < max)
      ensures Entries(key) == After(old(Entries(key)), now - window) + if ok then [now] else []
      ensures forall k :: k != key ==> Entries(k) == old(Entries(k))
    {
      hide After;
      var data, n := Recent(key, now - window);
      if n >= max {
        SetEntries(key, data, n);
        return false;
      }
      PushEntry(key, data, n, now);
      return true;
    }

    method PushEntry(key: string, data: array<int>, n: nat, now: int)
      requires Separate() && n <= data.Length
      requires forall k :: k in hits && k != key ==> hits[k].data != data
      modifies this`hits, data
      ensures Separate() && fresh(Arrays() - old(Arrays()) - {data})
      ensures Entries(key) == old(data[..n]) + [now]
      ensures forall k :: k != key ==> Entries(k) == old(Entries(k))
    {
      var grown := Append(data, n, now);
      hits := hits[key := Slice(grown, n + 1)];
    }

    // allow, at a clock reading not before the last one
    method Allow(key: string, now: int) returns (ok: bool)
      requires Valid() && last <= now
      modifies this, Arrays()
      ensures Valid() && fresh(Arrays() - old(Arrays()))
      ensures last == now
      ensures ok == (CountIn(old(log), key, now - window, now) < max)
      ensures log == if ok then old(log) + [Admission(key, now)] else old(log)
    {
      hide Limited, InOrder, Remembers, CountIn, After, Times;
      var cut := now - window;
      ghost var entries := Entries(key);
      RememberCompacted(entries, log, key, last - window, cut);
      CountLeft(entries, log, key, last, window, now);
      LaterOrder(log, last, now);
      ok := Update(key, now);
      if ok {
        Admit(log, last, max, window, key, now);
        RememberAdmitted(After(entries, cut), log, key, cut, now);
        log := log + [Admission(key, now)];
      }
      last := now;
      forall k ensures Remembers(Entries(k), log, k, cut) {
        if k != key {
          RememberStep(old(Entries(k)), old(log), k, old(last) - window, cut, ok, Admission(key, now));
        } else {
          assert After(entries, cut) + [] == After(entries, cut);
        }
      }
    }

    lemma Bounded(key: string, t: int)
      requires Valid() && 0 <= max
      ensures CountIn(log, key, t - window, t) <= max
    {
      hide CountIn, Limited, InOrder, Remembers;
      WindowBound(log, last, max, window, key, t);
    }
  }

  lemma RememberStep(entries: seq<int>, log: seq<Admission>, key: string, reach: int, cut: int, ok: bool, a: Admission)
    requires Remembers(entries, log, key, reach) && reach <= cut && a.key != key
    ensures Remembers(entries, if ok then log + [a] else log, key, cut)
  {
    hide Remembers;
    RememberLess(entries, log, key, reach, cut);
    RememberOther(entries, log, key, cut, a);
  }

  // append(h, now): in place while the array has room, else in a larger array
  method Append(data: array<int>, n: nat, now: int) returns (out: array<int>)
    requires n <= data.Length
    modifies data
    ensures out == data || fresh(out)
    ensures n < out.Length && out[..n + 1] == old(data[..n]) + [now]
  {
    out := data;
    if n == data.Length {
      out := new int[2 * n + 1];
      for i := 0 to n
        invariant out[..i] == data[..i]
        invariant data[..] == old(data[..])
      {
        out[i] := data[i];
      }
    }
    assert out[..n] == old(data[..n]);
    out[n] := now;
  }

  lemma AfterNothing(cut: int)
    ensures After([], cut) == []
  {}

  lemma LaterOrder(log: seq<Admission>, last: int, now: int)
    requires InOrder(log, last) && last <= now
    ensures InOrder(log, now)
  {}

  // The compacted entries are as many as the admissions in the window.
  lemma CountLeft(entries: seq<int>, log: seq<Admission>, key: string, last: int, window: int, now: int)
    requires Remembers(entries, log, key, last - window) && InOrder(log, last) && last <= now
    ensures |After(entries, now - window)| == CountIn(log, key, now - window, now)
  {
    CountIsAfter(log, key, now - window, now);
  }
}
