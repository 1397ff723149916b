/** Doubling a '1' in place, underscores and the cap of
    packages/moderation/src/leetspeak.ts:35 included. */
module LeetspeakDoubling {
  import opened Prelude
  import opened Leetspeak
  import opened LeetspeakCap
  import opened LeetspeakOnes

  // ---------------------------------------------------------------------
  // What the cap fixes around a run of ones
  // ---------------------------------------------------------------------

  function IsOf(n: nat): (s: string)
    ensures |s| == n && forall j :: 0 <= j < n ==> s[j] == 'i'
  {
    seq(n, _ => 'i')
  }

  /** What a last character becomes, and how many ones are kept before it. */
  function Becomes(c: char, n: nat): char { if c == '1' && n == 0 then 'i' else c }

  function KeptBefore(c: char, n: nat): nat { if c == '1' && n > 0 then n - 1 else n }

  lemma FixedSnoc(s: string, c: char, n: nat, t: string)
    requires t == s + [c]
    ensures Fixed(t, n) == Fixed(s, KeptBefore(c, n)) + [Becomes(c, n)]
  {
    assert t[..|s|] == s;
  }

  /** `n` ones are kept from the end: first those of `y`, then those of `x`. */
  ghost predicate Splits(x: string, y: string, n: nat, whole: string) {
    Fixed(whole, n) == Fixed(x, Max(n - Ones(y), 0)) + Fixed(y, n)
  }

  lemma Assoc(p: string, q: string, r: string)
    ensures p + q + r == p + (q + r)
  {
  }

  lemma SplitsNext(x: string, front: string, c: char, n: nat, wFront: string, y: string, whole: string)
    requires y == front + [c] && whole == wFront + [c] && Splits(x, front, KeptBefore(c, n), wFront)
    ensures Splits(x, y, n, whole)
  {
    var m := KeptBefore(c, n);
    FixedSnoc(wFront, c, n, whole);
    FixedSnoc(front, c, n, y);
    OnesSnoc(front, c);
    assert Max(n - Ones(y), 0) == Max(m - Ones(front), 0);
    Assoc(Fixed(x, Max(m - Ones(front), 0)), Fixed(front, m), [Becomes(c, n)]);
  }

  lemma {:induction false} FixedConcat(x: string, y: string, n: nat, whole: string)
    requires whole == x + y
    ensures Splits(x, y, n, whole)
  {
    if y == "" {
      assert whole == x;
    } else {
      var front, c := y[..|y| - 1], Last(y);
      var wFront := x + front;
      assert y == front + [c] && whole == wFront + [c];
      FixedConcat(x, front, KeptBefore(c, n), wFront);
      SplitsNext(x, front, c, n, wFront, y, whole);
    }
  }

  lemma {:induction false} FixedEnough(s: string, n: nat)
    requires Ones(s) <= n
    ensures Fixed(s, n) == s
  {
    if s != "" {
      var front, c := s[..|s| - 1], Last(s);
      assert s == front + [c];
      OnesSnoc(front, c);
      FixedEnough(front, KeptBefore(c, n));
    }
  }

  ghost predicate RunSplits(run: string, n: nat)
    requires n <= |run|
  {
    Fixed(run, n) == IsOf(|run| - n) + OnesOf(n)
  }

  lemma OnesNext(k: nat)
    ensures OnesOf(k + 1) == OnesOf(k) + ['1'] && IsOf(k + 1) == IsOf(k) + ['i']
  {
  }

  lemma RunSplitsNext(run: string, n: nat, longer: string)
    requires n <= |run| && longer == run + ['1'] && RunSplits(run, n)
    ensures RunSplits(longer, n + 1)
    ensures n == 0 ==> RunSplits(longer, 0)
  {
    var m := |run| - n;
    FixedSnoc(run, '1', n + 1, longer);
    FixedSnoc(run, '1', 0, longer);
    OnesNext(n);
    OnesNext(m);
    assert IsOf(m) + OnesOf(n) + ['1'] == IsOf(m) + (OnesOf(n) + ['1']);
    assert IsOf(m) + OnesOf(0) == IsOf(m) && IsOf(m + 1) + OnesOf(0) == IsOf(m + 1);
  }

  lemma {:induction false} FixedRun(run: string, n: nat)
    requires run == OnesOf(|run|) && n <= |run|
    ensures RunSplits(run, n)
    decreases |run|
  {
    if run == "" {
      assert IsOf(0) + OnesOf(0) == "";
    } else {
      var front := OnesOf(|run| - 1);
      FixedRun(front, if n == 0 then 0 else n - 1);
      RunSplitsNext(front, if n == 0 then 0 else n - 1, run);
    }
  }

  /** How many ones of the run are read both ways. */
  function Free(b: string): nat { Max(FREE_ONES - Ones(b), 0) }

  lemma FixedAround(a: string, k: nat, b: string, s: string, n: nat)
    requires FREE_ONES <= k + Ones(b) && s == a + OnesOf(k) + b && n == Free(b)
    ensures Fixed(s, FREE_ONES) == Fixed(a, 0) + (IsOf(k - n) + OnesOf(n)) + Fixed(b, FREE_ONES)
  {
    var front := a + OnesOf(k);
    FixedConcat(front, b, FREE_ONES, s);
    FixedFront(a, k, n, OnesOf(k), front);
  }

  lemma FixedFront(a: string, k: nat, n: nat, run: string, front: string)
    requires n <= k && run == OnesOf(k) && front == a + run
    ensures Fixed(front, n) == Fixed(a, 0) + (IsOf(k - n) + OnesOf(n))
  {
    OnesInRun(k);
    FixedRun(run, n);
    FixedConcat(a, run, n, front);
    assert Max(n - Ones(run), 0) == 0;
  }

  /** Equal up to repetitions of collapsed expansions. */
  ghost predicate SameReadings(s: string, t: string) {
    Distinct(CollapseAll(Expansions(s))) == Distinct(CollapseAll(Expansions(t)))
  }

  lemma SameFixed(s: string, t: string, fs: string, ft: string)
    requires fs == Fixed(s, FREE_ONES) && ft == Fixed(t, FREE_ONES)
    ensures Variants(s) == Variants(t) <==> SameReadings(fs, ft)
  {
    CapFixes(s);
    CapFixes(t);
  }

  lemma DoubledI(x: string, rest: string, s: string, t: string)
    requires s == x + ['i'] + rest && t == x + ['i'] + ['i'] + rest
    ensures SameReadings(s, t)
  {
    DoubledSameCollapse(x, 'i', rest);
  }

  lemma RunOfI(p: string, m: nat, n: nat, q: string, x: string, rest: string)
    requires x == p + IsOf(m) && rest == OnesOf(n) + q
    ensures p + (IsOf(m + 1) + OnesOf(n)) + q == x + ['i'] + rest
  {
    OnesNext(m);
    assert p + (IsOf(m) + ['i'] + OnesOf(n)) + q == p + IsOf(m) + ['i'] + (OnesOf(n) + q);
  }

  /** Past the cap a doubled one is only a doubled i. */
  lemma CappedSame(a: string, k: nat, b: string, s: string, t: string)
    requires 1 <= k && FREE_ONES < k + Ones(b) && s == a + OnesOf(k) + b && t == a + OnesOf(k + 1) + b
    ensures Variants(s) == Variants(t)
  {
    var n := Free(b);
    var m, p, q := k - n - 1, Fixed(a, 0), Fixed(b, FREE_ONES);
    FixedAround(a, k, b, s, n);
    FixedAround(a, k + 1, b, t, n);
    var x, rest := p + IsOf(m), OnesOf(n) + q;
    var xi := x + ['i'];
    RunOfI(p, m, n, q, x, rest);
    OnesNext(m);
    assert xi == p + IsOf(m + 1);
    RunOfI(p, m + 1, n, q, xi, rest);
    var fs, ft := Fixed(s, FREE_ONES), Fixed(t, FREE_ONES);
    DoubledI(x, rest, fs, ft);
    SameFixed(s, t, fs, ft);
  }

  // ---------------------------------------------------------------------
  // At the cap: one more '1' turns the one before the run into an i
  // ---------------------------------------------------------------------

  lemma FixedLast(a: string)
    requires a != "" && Last(a) != '1'
    ensures Fixed(a, 0) != "" && Last(Fixed(a, 0)) == Last(a)
  {
  }

  lemma {:induction false} NoOnes(x: string)
    requires Ones(x) == 0
    ensures forall i :: 0 <= i < |x| ==> x[i] != '1'
  {
    if x != "" {
      NoOnes(x[..|x| - 1]);
    }
  }

  /** The only expansion of a text without ones. */
  lemma Sole(x: string) returns (z: string)
    requires Ones(x) == 0
    ensures IsExpansion(x, z) && forall v :: IsExpansion(x, v) ==> v == z
    ensures x != "" && IsReading(Last(x)) ==> Last(z) == Last(x)
    ensures x != "" && !IsReading(Last(x)) ==> !IsReading(Last(z))
  {
    NoOnes(x);
    z := seq(|x|, i requires 0 <= i < |x| => Options(x[i])[0]);
    forall v | IsExpansion(x, v) ensures v == z {
      forall i | 0 <= i < |x| ensures v[i] == z[i] {
        assert v[i] in Options(x[i]) && |Options(x[i])| == 1;
      }
    }
    if x != "" && IsReading(Last(z)) {
      ReadingIsItself(Last(x), Last(z));
    }
  }

  lemma CollapseFirst(c: char, rest: string)
    ensures Collapse([c] + rest) != "" && Collapse([c] + rest)[0] == c
  {
  }

  /** After a different letter, the next one shows. */
  lemma NextShows(z: string, c: char, rest: string)
    requires z == "" || Last(z) != c
    ensures |Collapse(z + ([c] + rest))| > |Collapse(z)| && Collapse(z + ([c] + rest))[|Collapse(z)|] == c
  {
    CollapseApart(z, [c] + rest);
    CollapseFirst(c, rest);
  }

  /** An expansion after the fixed i is the sole expansion, an i and two parts. */
  lemma FixedParts(x: string, z: string, k: nat, b: string, e: string) returns (m: string, y: string)
    requires IsExpansion(x + ['i'] + OnesOf(k) + b, e) && forall v :: IsExpansion(x, v) ==> v == z
    ensures e == z + (['i'] + (m + y)) && |m| == k && IsExpansion(b, y)
  {
    var p;
    p, m, y := ThreeParts(x + ['i'], k, b, e);
    EndsInI(x, z, p);
    assert z + ['i'] + m + y == z + (['i'] + (m + y));
  }

  lemma EndsInI(x: string, z: string, p: string)
    requires IsExpansion(x + ['i'], p) && forall v :: IsExpansion(x, v) ==> v == z
    ensures p == z + ['i']
  {
    ExpansionParts(x, ['i'], p);
    assert p == p[..|x|] + p[|x|..] && p[|x|..] == ['i'];
  }

  /** The variant lists differ when one of two texts has a reading the other has not. */
  lemma ReadingTells(s: string, t: string, e: string)
    requires IsExpansion(s, e) && forall f :: IsExpansion(t, f) ==> Collapse(f) != Collapse(e)
    ensures !SameReadings(s, t)
  {
    ReadingListed(s, e);
    var v := Collapse(e);
    var ys := Expansions(t);
    DistinctMembers(CollapseAll(Expansions(s)), v);
    DistinctMembers(CollapseAll(ys), v);
    if v in CollapseAll(ys) {
      var i :| 0 <= i < |ys| && CollapseAll(ys)[i] == v;
      assert ys[i] in ys;
      ExpansionsExact(t, ys[i]);
    }
  }

  lemma ReadingListed(s: string, e: string)
    requires IsExpansion(s, e)
    ensures Collapse(e) in CollapseAll(Expansions(s))
  {
    ExpansionsExact(s, e);
    var xs := Expansions(s);
    var i :| 0 <= i < |xs| && xs[i] == e;
    assert CollapseAll(xs)[i] == Collapse(e);
  }

  lemma IShows(x: string, z: string, k: nat, b: string, f: string)
    requires IsExpansion(x + ['i'] + OnesOf(k) + b, f) && forall v :: IsExpansion(x, v) ==> v == z
    requires z == "" || !IsReading(Last(z))
    ensures |Collapse(f)| > |Collapse(z)| && Collapse(f)[|Collapse(z)|] == 'i'
  {
    var m, q := FixedParts(x, z, k, b, f);
    NextShows(z, 'i', m + q);
  }

  lemma LShows(x: string, z: string, k: nat, b: string) returns (e: string)
    requires IsExpansion(x, z) && 1 <= k && (z == "" || !IsReading(Last(z)))
    ensures IsExpansion(x + OnesOf(k) + b, e)
    ensures |Collapse(e)| > |Collapse(z)| && Collapse(e)[|Collapse(z)|] == 'l'
  {
    var y := Longest(b);
    var run := Turns('l', k);
    TurnsExpand(x, k, b, z, 'l', y);
    e := z + run + y;
    assert run == ['l'] + run[1..];
    assert e == z + (['l'] + (run[1..] + y));
    NextShows(z, 'l', run[1..] + y);
  }

  /** After no reading, the run may start with l, the fixed i may not. */
  lemma AfterOther(x: string, k: nat, b: string)
    requires Ones(x) == 0 && 1 <= k && (x == "" || !IsReading(Last(x)))
    ensures !SameReadings(x + OnesOf(k) + b, x + ['i'] + OnesOf(k) + b)
  {
    var z := Sole(x);
    var e := LShows(x, z, k, b);
    forall f | IsExpansion(x + ['i'] + OnesOf(k) + b, f) ensures Collapse(f) != Collapse(e) {
      IShows(x, z, k, b, f);
    }
    ReadingTells(x + OnesOf(k) + b, x + ['i'] + OnesOf(k) + b, e);
  }

  // ---------------------------------------------------------------------
  // At the cap, after a letter l
  // ---------------------------------------------------------------------

  function LsOf(n: nat): (s: string)
    ensures |s| == n && forall j :: 0 <= j < n ==> s[j] == 'l'
  {
    if n == 0 then "" else LsOf(n - 1) + ['l']
  }

  lemma {:induction false} LsAbsorbed(z: string, n: nat)
    requires z != "" && Last(z) == 'l'
    ensures Collapse(z + LsOf(n)) == Collapse(z)
  {
    if n == 0 {
      assert z + LsOf(0) == z;
    } else {
      LsAbsorbed(z, n - 1);
      assert z + LsOf(n) == z + LsOf(n - 1) + ['l'];
      CollapseSnoc(z + LsOf(n - 1), 'l');
      CollapseLast(z);
    }
  }

  /** What comes before `v` costs at least one letter. */
  ghost predicate Costs(whole: string, v: string) { |Collapse(whole)| >= 1 + |Collapse(v)| }

  lemma CostsOne(u: string, c: char, whole: string)
    requires u != "" && c != u[0] && whole == u + [c]
    ensures Costs(whole, [c])
  {
    CollapseSnoc(u, c);
    CollapseSingle(c);
    CollapseLast(u);
    assert u == [u[0]] + u[1..];
    CollapseFirst(u[0], u[1..]);
  }

  lemma CostsNext(wFront: string, front: string, c: char, whole: string, v: string)
    requires front != "" && wFront != "" && Last(wFront) == Last(front) && Costs(wFront, front)
    requires whole == wFront + [c] && v == front + [c]
    ensures Costs(whole, v)
  {
    CollapseSnoc(wFront, c);
    CollapseSnoc(front, c);
    CollapseLast(wFront);
    CollapseLast(front);
  }

  /** A different start costs a letter. */
  lemma {:induction false} StartCosts(u: string, v: string, whole: string)
    requires u != "" && (v == "" || v[0] != u[0]) && whole == u + v
    ensures Costs(whole, v)
  {
    if v == "" {
      CollapseLast(whole);
    } else {
      var front, c := v[..|v| - 1], Last(v);
      assert v == front + [c];
      if front == "" {
        CostsOne(u, c, whole);
      } else {
        var wFront := u + front;
        assert whole == wFront + [c];
        StartCosts(u, front, wFront);
        CostsNext(wFront, front, c, whole, v);
      }
    }
  }

  lemma {:induction false} ShortestOf(xs: seq<string>) returns (i: nat)
    requires xs != []
    ensures i < |xs| && forall j :: 0 <= j < |xs| ==> |xs[i]| <= |xs[j]|
  {
    i := 0;
    if 1 < |xs| {
      i := ShortestOf(xs[..|xs| - 1]);
      assert forall j :: 0 <= j < |xs| - 1 ==> xs[j] == xs[..|xs| - 1][j];
      if |xs[|xs| - 1]| < |xs[i]| {
        i := |xs| - 1;
      }
    }
  }

  lemma Shortest(s: string) returns (w: string)
    ensures IsExpansion(s, w) && forall v :: IsExpansion(s, v) ==> |Collapse(w)| <= |Collapse(v)|
  {
    var xs := Expansions(s);
    NonEmptyExpansions(s);
    var i := ShortestOf(CollapseAll(xs));
    w := xs[i];
    assert w in xs;
    ExpansionsExact(s, w);
    forall v | IsExpansion(s, v) ensures |Collapse(w)| <= |Collapse(v)| {
      ExpansionsExact(s, v);
      var j :| 0 <= j < |xs| && xs[j] == v;
      assert CollapseAll(xs)[j] == Collapse(v) && CollapseAll(xs)[i] == Collapse(w);
    }
  }

  lemma LsExpand(x: string, z: string, k: nat, b: string, y: string)
    requires IsExpansion(x, z) && IsExpansion(b, y)
    ensures IsExpansion(x + OnesOf(k) + b, z + LsOf(k) + y)
  {
    assert IsExpansion(OnesOf(k), LsOf(k));
    ExpansionJoined(x, OnesOf(k), z, LsOf(k));
    ExpansionJoined(x + OnesOf(k), b, z + LsOf(k), y);
  }

  lemma NotI(b: string, y: string)
    requires IsExpansion(b, y) && (b == "" || (b[0] != '1' && b[0] != 'i'))
    ensures y == "" || y[0] != 'i'
  {
    if y != "" && y[0] == 'i' {
      assert y[0] in Options(b[0]);
      ReadingIsItself(b[0], 'i');
    }
  }

  /** Between l and anything but i, the run may vanish, the fixed i may not. */
  lemma BeforeOther(x: string, k: nat, b: string)
    requires Ones(x) == 0 && x != "" && Last(x) == 'l' && (b == "" || (b[0] != '1' && b[0] != 'i'))
    ensures !SameReadings(x + OnesOf(k) + b, x + ['i'] + OnesOf(k) + b)
  {
    var z := Sole(x);
    var y := Shortest(b);
    var e := z + LsOf(k) + y;
    LsExpand(x, z, k, b, y);
    LsAbsorbed(z, k);
    CollapseShorter(z + LsOf(k), y);
    forall f | IsExpansion(x + ['i'] + OnesOf(k) + b, f) ensures Collapse(f) != Collapse(e) {
      var m, q := FixedParts(x, z, k, b, f);
      LongerWithI(z, m, q, f);
      NotI(b, q);
    }
    ReadingTells(x + OnesOf(k) + b, x + ['i'] + OnesOf(k) + b, e);
  }

  lemma LongerWithI(z: string, m: string, q: string, f: string)
    requires z == "" || Last(z) != 'i'
    requires f == z + (['i'] + (m + q))
    ensures q == "" || q[0] != 'i' ==> |Collapse(f)| >= |Collapse(z)| + 1 + |Collapse(q)|
  {
    var u := ['i'] + m;
    assert ['i'] + (m + q) == u + q;
    CollapseApart(z, u + q);
    if q == "" || q[0] != 'i' {
      StartCosts(u, q, u + q);
    }
  }

  lemma TurnsAfterI(x: string, z: string, k: nat, b: string, y: string)
    requires IsExpansion(x, z) && IsExpansion(b, y)
    ensures IsExpansion(x + ['i'] + OnesOf(k) + b, z + Turns('i', k + 1) + y)
  {
    assert IsExpansion(['i'], ['i']);
    ExpansionJoined(x, ['i'], z, ['i']);
    TurnsExpand(x + ['i'], k, b, z + ['i'], 'l', y);
    assert Turns('i', k + 1) == ['i'] + Turns('l', k);
    assert z + Turns('i', k + 1) + y == z + ['i'] + Turns('l', k) + y;
  }

  lemma SameSides(s: string, t: string)
    ensures SameReadings(s, t) <==> SameReadings(t, s)
  {
  }

  lemma OddLonger(x: string, k: nat, b: string, z: string, y: string) returns (e: string)
    requires IsExpansion(x, z) && IsExpansion(b, y) && k % 2 == 1
    requires z != "" && Last(z) == 'l' && y != "" && y[0] == 'i'
    ensures IsExpansion(x + ['i'] + OnesOf(k) + b, e) && |Collapse(e)| == |Collapse(z)| + k + 1 + |Collapse(y)|
  {
    TurnsAfterI(x, z, k, b, y);
    TurnsApart(z, 'i', k + 1, y);
    e := z + Turns('i', k + 1) + y;
  }

  /** Between l and i, an odd run is one letter short of what the fixed i adds. */
  lemma OddBeforeI(x: string, k: nat, b: string, s: string, t: string)
    requires Ones(x) == 0 && x != "" && Last(x) == 'l' && b != "" && b[0] == 'i' && k % 2 == 1
    requires s == x + OnesOf(k) + b && t == x + ['i'] + OnesOf(k) + b
    ensures !SameReadings(s, t)
  {
    var z := Sole(x);
    var y := Longest(b);
    assert y[0] in Options(b[0]);
    var e := OddLonger(x, k, b, z, y);
    forall f | IsExpansion(s, f) ensures Collapse(f) != Collapse(e) {
      PartsBound(x, k, b, z, y, f);
    }
    ReadingTells(t, s, e);
    SameSides(t, s);
  }

  // ---------------------------------------------------------------------
  // At the cap, an even run between l and i
  // ---------------------------------------------------------------------

  lemma {:induction false} TailTail(u: string, n: nat)
    requires u != "" && IsReading(Last(u))
    ensures Tail(Tail(u, 1), n) == Tail(u, n + 1)
  {
    if 0 < n {
      TailTail(u, n - 1);
    }
  }

  lemma ClosedNext(u: string, k: nat)
    requires u != "" && Last(u) == 'l' && 1 <= k
    ensures Closed(Tail(u, 1), k) == Tails(u, 1, k + 1)
  {
    var t := Tail(u, 1);
    forall i | 0 <= i < k + 1 ensures Tail(t, i) == Tail(u, i + 1) {
      TailTail(u, i);
    }
    assert Closed(t, k) == Tails(t, 0, k);
  }

  lemma LateSaysNothing(u: string, k: nat)
    requires u != "" && Last(u) == 'l' && 1 <= k
    ensures Distinct(Absorbed(Tails(u, 1, k) + [u], ['i'])) == Distinct(Absorbed(Tails(u, 1, k), ['i']))
  {
    var ts := Tails(u, 1, k);
    assert u == Tail(u, 0);
    TailAbsorbs(u, 0, 'i');
    TailAbsorbs(u, 1, 'i');
    TailsDistinct(u, 1, k, 1);
    AbsorbedMember(ts, Tail(u, 1), ['i']);
    assert Absorbing(Tail(u, 1), ['i'])[0] == Tail(u, 1);
    AbsorbedSnoc(ts, u, ['i']);
    assert Absorbing(u, ['i']) == [Tail(u, 1)];
    DistinctNothingNew(Absorbed(ts, ['i']), [Tail(u, 1)]);
  }

  lemma EvenSame(u: string, k: nat, shorter: seq<string>, longer: seq<string>)
    requires u != "" && Last(u) == 'l' && 1 <= k && k % 2 == 0
    requires shorter == Tails(u, 1, k) + [u] && longer == Tails(u, 1, k + 1)
    ensures Distinct(Absorbed(longer, ['i'])) == Distinct(Absorbed(shorter, ['i']))
  {
    LateSaysNothing(u, k);
    LongestAbsorbed(u, 1, k, 'i', []);
    assert longer + [] == longer && Tails(u, 1, k) + [] == Tails(u, 1, k);
  }

  lemma EvenOneString(u: string, k: nat, t: string, us: seq<string>, ts: seq<string>, run: string)
    requires u != "" && Last(u) == 'l' && 1 <= k && k % 2 == 0 && t == Tail(u, 1)
    requires us == [u] && ts == [t] && run == OnesOf(k)
    ensures Distinct(Reads(ts, run + ['i'])) == Distinct(Reads(us, run + ['i']))
  {
    var shorter, longer := Closed(u, k), Closed(t, k);
    ClosedNext(u, k);
    EvenSame(u, k, shorter, longer);
    RunClosed(u, k, us, run, shorter);
    RunClosed(t, k, ts, run, longer);
    SameThen(us, run, ts, run, 'i', shorter, longer);
  }

  lemma SoleCollapsed(x: string) returns (u: string)
    requires Ones(x) == 0 && x != "" && Last(x) == 'l'
    ensures CollapseAll(Expansions(x)) == [u] && u != "" && Last(u) == 'l'
  {
    ExpansionsCount(x);
    u := CollapseAll(Expansions(x))[0];
    EndInLast(x, u);
  }

  lemma NextCollapsed(x: string, u: string, next: string)
    requires u != "" && Last(u) == 'l' && CollapseAll(Expansions(x)) == [u] && next == Tail(u, 1)
    ensures CollapseAll(Expansions(x + ['i'])) == [next]
  {
    TailAbsorbs(u, 0, 'i');
    ReadsOne(x, 'i');
    SingleAbsorbed(u, ['i']);
    assert Options('i') == ['i'];
    assert Absorbing(u, ['i']) == [next];
  }

  lemma EvenBeforeI(x: string, k: nat, rest: string, s: string, t: string)
    requires Ones(x) == 0 && x != "" && Last(x) == 'l' && 1 <= k && k % 2 == 0
    requires s == x + OnesOf(k) + (['i'] + rest) && t == x + ['i'] + OnesOf(k) + (['i'] + rest)
    ensures SameReadings(s, t)
  {
    var u := SoleCollapsed(x);
    var next, run := Tail(u, 1), OnesOf(k);
    var us, ts := [u], [next];
    NextCollapsed(x, u, next);
    EvenOneString(u, k, next, us, ts, run);
    ReadsParts(us, x, run, 'i', rest, s);
    ReadsParts(ts, x + ['i'], run, 'i', rest, t);
    SameReads(Reads(ts, run + ['i']), Reads(us, run + ['i']), rest);
  }

  // ---------------------------------------------------------------------
  // All decided cases
  // ---------------------------------------------------------------------

  /** The run and what follows it hold twelve ones: whether the i that the cap
      puts before one more '1' changes nothing. */
  predicate IAbsorbed(a: string, k: nat, b: string) {
    a != "" && (Last(a) == 'i' || (Last(a) == 'l' && b != "" && b[0] == 'i' && k % 2 == 0))
  }

  lemma AtCapSame(x: string, k: nat, b: string)
    requires Ones(x) == 0 && 1 <= k && IAbsorbed(x, k, b)
    ensures SameReadings(x + OnesOf(k) + b, x + ['i'] + OnesOf(k) + b)
  {
    var s, t := x + OnesOf(k) + b, x + ['i'] + OnesOf(k) + b;
    if Last(x) == 'i' {
      var front := x[..|x| - 1];
      assert x == front + ['i'];
      assert s == front + ['i'] + (OnesOf(k) + b) && t == front + ['i'] + ['i'] + (OnesOf(k) + b);
      DoubledI(front, OnesOf(k) + b, s, t);
    } else {
      assert b == ['i'] + b[1..];
      EvenBeforeI(x, k, b[1..], s, t);
    }
  }

  lemma AtCapExactly(x: string, k: nat, b: string)
    requires Ones(x) == 0 && 1 <= k && (b == "" || b[0] != '1')
    ensures SameReadings(x + OnesOf(k) + b, x + ['i'] + OnesOf(k) + b) <==> IAbsorbed(x, k, b)
  {
    if IAbsorbed(x, k, b) {
      AtCapSame(x, k, b);
    } else if x == "" || !IsReading(Last(x)) {
      AfterOther(x, k, b);
    } else if b == "" || b[0] != 'i' {
      BeforeOther(x, k, b);
    } else {
      OddBeforeI(x, k, b, x + OnesOf(k) + b, x + ['i'] + OnesOf(k) + b);
    }
  }

  lemma FixedAtCap(a: string, k: nat, b: string, s: string, t: string)
    requires k + Ones(b) == FREE_ONES && s == a + OnesOf(k) + b && t == a + OnesOf(k + 1) + b
    ensures Fixed(s, FREE_ONES) == Fixed(a, 0) + OnesOf(k) + b
    ensures Fixed(t, FREE_ONES) == Fixed(a, 0) + ['i'] + OnesOf(k) + b
  {
    FixedAround(a, k, b, s, k);
    FixedAround(a, k + 1, b, t, k);
    FixedEnough(b, FREE_ONES);
    assert IsOf(0) + OnesOf(k) == OnesOf(k) && IsOf(1) == ['i'];
    assert Fixed(a, 0) + (['i'] + OnesOf(k)) == Fixed(a, 0) + ['i'] + OnesOf(k);
  }

  lemma AtCap(a: string, k: nat, b: string, s: string, t: string)
    requires 1 <= k && (a == "" || Last(a) != '1') && (b == "" || b[0] != '1') && k + Ones(b) == FREE_ONES
    requires s == a + OnesOf(k) + b && t == a + OnesOf(k + 1) + b
    ensures Variants(s) == Variants(t) <==> IAbsorbed(a, k, b)
  {
    var x := Fixed(a, 0);
    FixedOnes(a, 0);
    FixedAtCap(a, k, b, s, t);
    AtCapExactly(x, k, b);
    if a != "" {
      FixedLast(a);
    }
    SameFixed(s, t, x + OnesOf(k) + b, x + ['i'] + OnesOf(k) + b);
  }

  /** Twelve ones in the run and after it leave none of the earlier ones free. */
  predicate Covered(a: string, k: nat, b: string) {
    Ones(a) + k + Ones(b) < FREE_ONES || FREE_ONES <= k + Ones(b)
  }

  /** One more '1' in the run changes no variant. */
  predicate Harmless(a: string, k: nat, b: string) {
    if Ones(a) + k + Ones(b) < FREE_ONES then BetweenReadings(a, k, b)
    else FREE_ONES < k + Ones(b) || IAbsorbed(a, k, b)
  }

  /** One more '1' in a whole run of `k` ones leaves the variant list as it was
      if and only if it is harmless: below the cap the run lies between two
      letters it can read as, at the cap the letters around it absorb an i, and
      past the cap it always is. */
  lemma DoublingExactlyWithCap(a: string, k: nat, b: string)
    requires 1 <= k && (a == "" || Last(a) != '1') && (b == "" || b[0] != '1') && Covered(a, k, b)
    ensures Variants(a + OnesOf(k + 1) + b) == Variants(a + OnesOf(k) + b) <==> Harmless(a, k, b)
  {
    OnesAround(a, k, b);
    if Ones(a) + k + Ones(b) < FREE_ONES {
      DoublingOneExactly(a, k, b);
    } else if FREE_ONES < k + Ones(b) {
      CappedSame(a, k, b, a + OnesOf(k) + b, a + OnesOf(k + 1) + b);
    } else {
      AtCap(a, k, b, a + OnesOf(k) + b, a + OnesOf(k + 1) + b);
    }
  }

  // ---------------------------------------------------------------------
  // In place
  // ---------------------------------------------------------------------

  lemma {:induction false} TrailingOnes(s: string) returns (a: string, i: nat)
    ensures s == a + OnesOf(i) && (a == "" || Last(a) != '1')
  {
    if s == "" || Last(s) != '1' {
      a, i := s, 0;
    } else {
      a, i := TrailingOnes(s[..|s| - 1]);
      i := i + 1;
    }
  }

  lemma {:induction false} LeadingOnes(s: string) returns (j: nat, b: string)
    ensures s == OnesOf(j) + b && (b == "" || b[0] != '1')
  {
    if s == "" || s[0] != '1' {
      j, b := 0, s;
    } else {
      j, b := LeadingOnes(s[1..]);
      assert OnesOf(j + 1) == ['1'] + OnesOf(j);
      j := j + 1;
    }
  }

  lemma OnesMerge(a: string, i: nat, ones: string, j: nat, b: string)
    requires forall n :: 0 <= n < |ones| ==> ones[n] == '1'
    ensures a + OnesOf(i) + ones + (OnesOf(j) + b) == a + OnesOf(i + |ones| + j) + b
  {
    assert OnesOf(i) + ones + OnesOf(j) == OnesOf(i + |ones| + j);
  }

  lemma {:induction false} OnesUnstripped(ones: string)
    requires forall n :: 0 <= n < |ones| ==> ones[n] == '1'
    ensures StripUnderscores(ones) == ones
  {
    if ones != "" {
      OnesUnstripped(ones[..|ones| - 1]);
    }
  }

  lemma StrippedAround(pre: string, ones: string, post: string, a: string, i: nat, j: nat, b: string)
    requires forall n :: 0 <= n < |ones| ==> ones[n] == '1'
    requires StripUnderscores(pre) == a + OnesOf(i) && StripUnderscores(post) == OnesOf(j) + b
    ensures StripUnderscores(pre + ones + post) == a + OnesOf(i + |ones| + j) + b
  {
    OnesUnstripped(ones);
    StripConcat(pre, ones);
    StripConcat(pre + ones, post);
    OnesMerge(a, i, ones, j, b);
  }

  lemma BothStripped(pre: string, post: string, text: string, doubled: string, a: string, i: nat, j: nat, b: string)
    requires text == pre + "1" + post && doubled == pre + "11" + post
    requires StripUnderscores(pre) == a + OnesOf(i) && StripUnderscores(post) == OnesOf(j) + b
    ensures StripUnderscores(text) == a + OnesOf(i + 1 + j) + b
    ensures StripUnderscores(doubled) == a + OnesOf(i + 2 + j) + b
  {
    StrippedAround(pre, "1", post, a, i, j, b);
    StrippedAround(pre, "11", post, a, i, j, b);
  }

  lemma OneMore(s: string, t: string, a: string, k: nat, b: string)
    requires s == a + OnesOf(k) + b && t == a + OnesOf(k + 1) + b
    requires 1 <= k && (a == "" || Last(a) != '1') && (b == "" || b[0] != '1') && Covered(a, k, b)
    ensures Variants(t) == Variants(s) <==> Harmless(a, k, b)
  {
    DoublingExactlyWithCap(a, k, b);
  }

  /** Doubling a '1' where it stands in any lower-case text, underscores
      included. `a`, `k` and `b` cut the stripped text around the run of that '1'. */
  lemma DoublingInPlace(pre: string, post: string, text: string, doubled: string) returns (a: string, k: nat, b: string)
    requires text == pre + "1" + post && doubled == pre + "11" + post
    ensures StripUnderscores(text) == a + OnesOf(k) + b
    ensures |a| <= |StripUnderscores(pre)| < |a| + k
    ensures (a == "" || Last(a) != '1') && (b == "" || b[0] != '1')
    ensures Covered(a, k, b) ==>
              (Variants(StripUnderscores(doubled)) == Variants(StripUnderscores(text)) <==> Harmless(a, k, b))
  {
    var i, j: nat;
    a, i := TrailingOnes(StripUnderscores(pre));
    j, b := LeadingOnes(StripUnderscores(post));
    k := i + 1 + j;
    BothStripped(pre, post, text, doubled, a, i, j, b);
    if Covered(a, k, b) {
      OneMore(StripUnderscores(text), StripUnderscores(doubled), a, k, b);
    }
  }
}
