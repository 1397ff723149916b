/** Doubling a '1' in a name without underscores: exactly when the variant list
    of packages/moderation/src/leetspeak.ts stays the same. */
module LeetspeakOnes {
  import opened Prelude
  import opened Leetspeak

  /** A run of `k` ones. */
  function OnesOf(k: nat): (s: string)
    ensures |s| == k && forall i :: 0 <= i < k ==> s[i] == '1'
  {
    if k == 0 then "" else OnesOf(k - 1) + ['1']
  }

  /** What a '1' can stand for. */
  predicate IsReading(c: char) { c == 'i' || c == 'l' }

  function Other(c: char): char { if c == 'i' then 'l' else 'i' }

  function Last(s: string): char
    requires s != ""
  {
    s[|s| - 1]
  }

  /** The run of `k` ones lies between two letters it can read as, the same
      letter on both sides exactly when `k` is odd. */
  predicate BetweenReadings(a: string, k: nat, b: string) {
    a != "" && b != "" && IsReading(Last(a)) && IsReading(b[0]) && (Last(a) == b[0] <==> k % 2 == 1)
  }

  // ---------------------------------------------------------------------
  // First occurrences
  // ---------------------------------------------------------------------

  lemma DistinctSnoc(xs: seq<string>, x: string)
    ensures Distinct(xs + [x]) == if x in xs then Distinct(xs) else Distinct(xs) + [x]
  {
    assert (xs + [x])[..|xs|] == xs;
    DistinctMembers(xs, x);
  }

  lemma {:induction false} DistinctNothingNew(xs: seq<string>, ys: seq<string>)
    requires forall y :: y in ys ==> y in xs
    ensures Distinct(xs + ys) == Distinct(xs)
  {
    if ys == [] {
      assert xs + ys == xs;
    } else {
      var front, y := ys[..|ys| - 1], ys[|ys| - 1];
      DistinctNothingNew(xs, front);
      DistinctSnoc(xs + front, y);
      assert y in ys && xs + ys == xs + front + [y];
    }
  }

  lemma {:induction false} DistinctTail(xs: seq<string>, ys: seq<string>)
    ensures Distinct(xs + Distinct(ys)) == Distinct(xs + ys)
  {
    if ys != [] {
      var front, y := ys[..|ys| - 1], ys[|ys| - 1];
      DistinctTail(xs, front);
      DistinctSnoc(xs + front, y);
      DistinctMembers(front, y);
      assert ys == front + [y] && xs + ys == xs + front + [y];
      if y !in front {
        DistinctSnoc(xs + Distinct(front), y);
        assert xs + Distinct(ys) == xs + Distinct(front) + [y];
      }
    }
  }

  lemma DistinctHeadNext(xw: seq<string>, uw: seq<string>, y: string)
    requires Distinct(xw) == Distinct(uw)
    ensures Distinct(xw + [y]) == Distinct(uw + [y])
  {
    DistinctSnoc(xw, y);
    DistinctSnoc(uw, y);
    DistinctMembers(xw, y);
    DistinctMembers(uw, y);
  }

  lemma {:induction false} DistinctHead(xs: seq<string>, us: seq<string>, ys: seq<string>)
    requires Distinct(xs) == Distinct(us)
    ensures Distinct(xs + ys) == Distinct(us + ys)
  {
    if ys == [] {
      assert xs + ys == xs && us + ys == us;
    } else {
      var front, y := ys[..|ys| - 1], ys[|ys| - 1];
      var xw, uw := xs + front, us + front;
      DistinctHead(xs, us, front);
      DistinctHeadNext(xw, uw, y);
      assert xs + ys == xw + [y] && us + ys == uw + [y];
    }
  }

  lemma DistinctBoth(xs: seq<string>, us: seq<string>, ys: seq<string>, vs: seq<string>)
    requires Distinct(xs) == Distinct(us) && Distinct(ys) == Distinct(vs)
    ensures Distinct(xs + ys) == Distinct(us + vs)
  {
    DistinctTail(xs, ys);
    DistinctTail(xs, vs);
    DistinctHead(xs, us, vs);
  }

  // ---------------------------------------------------------------------
  // Collapsed expansions, one character at a time
  // ---------------------------------------------------------------------

  function Absorbing(v: string, options: seq<char>): (r: seq<string>)
    ensures |r| == |options|
  {
    seq(|options|, i requires 0 <= i < |options| => Absorb(v, options[i]))
  }

  /** Every collapsed string goes on with every option. */
  function Absorbed(vs: seq<string>, options: seq<char>): seq<string> {
    if vs == [] then [] else Absorbed(vs[..|vs| - 1], options) + Absorbing(vs[|vs| - 1], options)
  }

  /** Every collapsed string goes on with every reading of the text. */
  function Reads(vs: seq<string>, text: string): seq<string> {
    if text == "" then vs else Absorbed(Reads(vs, text[..|text| - 1]), Options(text[|text| - 1]))
  }

  lemma {:induction false} CollapseExtend(vs: seq<string>, options: seq<char>)
    ensures CollapseAll(Extend(vs, options)) == Absorbed(CollapseAll(vs), options)
  {
    if vs != [] {
      var front, v := vs[..|vs| - 1], vs[|vs| - 1];
      CollapseExtend(front, options);
      assert CollapseAll(vs)[..|vs| - 1] == CollapseAll(front);
      forall i | 0 <= i < |options| ensures Collapse(v + [options[i]]) == Absorb(Collapse(v), options[i]) {
        CollapseSnoc(v, options[i]);
      }
      var xs, row := Extend(front, options), Row(v, options);
      assert CollapseAll(xs + row) == CollapseAll(xs) + CollapseAll(row);
      assert CollapseAll(row) == Absorbing(Collapse(v), options);
    }
  }

  lemma ReadsOne(s: string, c: char)
    ensures CollapseAll(Expansions(s + [c])) == Absorbed(CollapseAll(Expansions(s)), Options(c))
  {
    ExpansionsSnoc(s, c);
    CollapseExtend(Expansions(s), Options(c));
  }

  /** `us` going on with `text` are the collapsed expansions of `s`. */
  ghost predicate GoesOn(us: seq<string>, s: string, text: string) { CollapseAll(Expansions(s)) == Reads(us, text) }

  lemma GoesOnNext(us: seq<string>, s: string, front: string, c: char)
    requires GoesOn(us, s, front)
    ensures GoesOn(us, s + [c], front + [c])
  {
    ReadsOne(s, c);
    ReadsSnoc(us, front, c);
  }

  lemma {:induction false} ReadsOn(us: seq<string>, a: string, text: string, s: string)
    requires us == CollapseAll(Expansions(a)) && s == a + text
    ensures GoesOn(us, s, text)
  {
    if text == "" {
      assert s == a;
    } else {
      var front, c := text[..|text| - 1], Last(text);
      var sFront := a + front;
      assert text == front + [c] && s == sFront + [c];
      ReadsOn(us, a, front, sFront);
      GoesOnNext(us, sFront, front, c);
    }
  }

  lemma AbsorbedSnoc(xs: seq<string>, x: string, options: seq<char>)
    ensures Absorbed(xs + [x], options) == Absorbed(xs, options) + Absorbing(x, options)
  {
    assert (xs + [x])[..|xs|] == xs;
  }

  lemma ReadsSnoc(vs: seq<string>, text: string, c: char)
    ensures Reads(vs, text + [c]) == Absorbed(Reads(vs, text), Options(c))
  {
    assert (text + [c])[..|text|] == text;
  }

  lemma AbsorbedConcatNext(xs: seq<string>, front: seq<string>, y: string, options: seq<char>)
    requires Absorbed(xs + front, options) == Absorbed(xs, options) + Absorbed(front, options)
    ensures Absorbed(xs + front + [y], options) == Absorbed(xs, options) + Absorbed(front + [y], options)
  {
    AbsorbedSnoc(xs + front, y, options);
    AbsorbedSnoc(front, y, options);
  }

  lemma {:induction false} AbsorbedConcat(xs: seq<string>, ys: seq<string>, options: seq<char>)
    ensures Absorbed(xs + ys, options) == Absorbed(xs, options) + Absorbed(ys, options)
  {
    if ys == [] {
      assert xs + ys == xs;
    } else {
      var front, y := ys[..|ys| - 1], ys[|ys| - 1];
      AbsorbedConcat(xs, front, options);
      AbsorbedConcatNext(xs, front, y, options);
      assert ys == front + [y] && xs + ys == xs + front + [y];
    }
  }

  lemma {:induction false} ReadsConcat(xs: seq<string>, ys: seq<string>, text: string)
    ensures Reads(xs + ys, text) == Reads(xs, text) + Reads(ys, text)
  {
    if text != "" {
      var front := text[..|text| - 1];
      ReadsConcat(xs, ys, front);
      AbsorbedConcat(Reads(xs, front), Reads(ys, front), Options(text[|text| - 1]));
    }
  }

  lemma {:induction false} ReadsText(vs: seq<string>, s: string, t: string)
    ensures Reads(vs, s + t) == Reads(Reads(vs, s), t)
  {
    if t == "" {
      assert s + t == s;
    } else {
      assert (s + t)[..|s + t| - 1] == s + t[..|t| - 1];
      ReadsText(vs, s, t[..|t| - 1]);
    }
  }

  lemma {:induction false} AbsorbedMember(xs: seq<string>, x: string, options: seq<char>)
    requires x in xs
    ensures forall y :: y in Absorbing(x, options) ==> y in Absorbed(xs, options)
  {
    var front, last := xs[..|xs| - 1], xs[|xs| - 1];
    if x != last {
      assert x in front;
      AbsorbedMember(front, x, options);
    }
  }

  /** Repetitions before a step leave no trace after it. */
  lemma {:induction false} DistinctAbsorbed(xs: seq<string>, options: seq<char>)
    ensures Distinct(Absorbed(Distinct(xs), options)) == Distinct(Absorbed(xs, options))
  {
    if xs != [] {
      var front, x := xs[..|xs| - 1], xs[|xs| - 1];
      assert xs == front + [x];
      DistinctAbsorbed(front, options);
      DistinctMembers(front, x);
      if x in front {
        AbsorbedMember(front, x, options);
        DistinctNothingNew(Absorbed(front, options), Absorbing(x, options));
      } else {
        AbsorbedSnoc(Distinct(front), x, options);
        DistinctHead(Absorbed(Distinct(front), options), Absorbed(front, options), Absorbing(x, options));
      }
    }
  }

  lemma SameAbsorbed(xs: seq<string>, ys: seq<string>, options: seq<char>)
    requires Distinct(xs) == Distinct(ys)
    ensures Distinct(Absorbed(xs, options)) == Distinct(Absorbed(ys, options))
  {
    DistinctAbsorbed(xs, options);
    DistinctAbsorbed(ys, options);
  }

  lemma {:induction false} SameReads(xs: seq<string>, ys: seq<string>, text: string)
    requires Distinct(xs) == Distinct(ys)
    ensures Distinct(Reads(xs, text)) == Distinct(Reads(ys, text))
  {
    if text != "" {
      SameReads(xs, ys, text[..|text| - 1]);
      SameAbsorbed(Reads(xs, text[..|text| - 1]), Reads(ys, text[..|text| - 1]), Options(text[|text| - 1]));
    }
  }

  // ---------------------------------------------------------------------
  // A run of ones after a letter it can read as
  // ---------------------------------------------------------------------

  /** `u` and `n` more letters, i and l taking turns. */
  function Tail(u: string, n: nat): (t: string)
    requires u != "" && IsReading(Last(u))
    ensures |t| == |u| + n && t != "" && IsReading(Last(t))
    ensures Last(t) == if n % 2 == 0 then Last(u) else Other(Last(u))
  {
    if n == 0 then u else Tail(u, n - 1) + [Other(Last(Tail(u, n - 1)))]
  }

  /** The tails from `m` to `k`. */
  function Tails(u: string, m: nat, k: nat): (ts: seq<string>)
    requires u != "" && IsReading(Last(u)) && m <= k
    ensures |ts| == k - m + 1 && forall i :: 0 <= i < |ts| ==> ts[i] == Tail(u, m + i)
  {
    seq(k - m + 1, i requires 0 <= i < k - m + 1 => Tail(u, m + i))
  }

  /** Which tail a first '1' leads to. */
  function First(u: string): nat
    requires u != ""
  {
    if Last(u) == 'i' then 0 else 1
  }

  /** All that `k` ones can make of `u`, in order. */
  function Closed(u: string, k: nat): seq<string>
    requires u != "" && IsReading(Last(u)) && 1 <= k
  {
    Tails(u, First(u), k) + Late(u)
  }

  /** After a letter l the string itself comes last. */
  function Late(u: string): seq<string>
    requires u != ""
  {
    if Last(u) == 'i' then [] else [u]
  }

  lemma TailsSnoc(u: string, m: nat, k: nat)
    requires u != "" && IsReading(Last(u)) && m <= k
    ensures Tails(u, m, k + 1) == Tails(u, m, k) + [Tail(u, k + 1)]
  {
  }

  /** A tail goes on as itself and as the next one. */
  lemma TailAbsorbs(u: string, n: nat, c: char)
    requires u != "" && IsReading(Last(u)) && IsReading(c)
    ensures Absorb(Tail(u, n), c) == Tail(u, if Last(Tail(u, n)) == c then n else n + 1)
  {
  }

  lemma TailsDistinct(u: string, m: nat, k: nat, n: nat)
    requires u != "" && IsReading(Last(u)) && m <= k
    ensures Tail(u, n) in Tails(u, m, k) <==> m <= n <= k
  {
    if m <= n <= k {
      assert Tails(u, m, k)[n - m] == Tail(u, n);
    } else {
      forall i | 0 <= i < k - m + 1 ensures Tails(u, m, k)[i] != Tail(u, n) {
        assert |Tail(u, m + i)| != |Tail(u, n)|;
      }
    }
  }

  /** What a '1' makes of a tail, in the order of its readings. */
  lemma TailRow(u: string, n: nat)
    requires u != "" && IsReading(Last(u))
    ensures var t, next := Tail(u, n), Tail(u, n + 1);
            Absorbing(t, Options('1')) == if Last(t) == 'i' then [t, next] else [next, t]
  {
    TailAbsorbs(u, n, 'i');
    TailAbsorbs(u, n, 'l');
    assert Options('1') == ['i', 'l'];
  }

  lemma AppendFresh(xs: seq<string>, known: string, next: string, row: seq<string>)
    requires known in xs && next !in xs && (row == [known, next] || row == [next, known])
    ensures Distinct(xs + row) == Distinct(xs) + [next]
  {
    DistinctSnoc(xs, row[0]);
    DistinctSnoc(xs + [row[0]], row[1]);
    assert xs + row == xs + [row[0]] + [row[1]];
  }

  /** The step adds the next tail when it meets a known one. */
  lemma AppendTail(u: string, xs: seq<string>, m: nat, k: nat)
    requires u != "" && IsReading(Last(u)) && m <= k && Distinct(xs) == Tails(u, m, k)
    ensures Distinct(xs + Absorbing(Tail(u, k), Options('1'))) == Tails(u, m, k + 1)
  {
    TailRow(u, k);
    DistinctMembers(xs, Tail(u, k));
    DistinctMembers(xs, Tail(u, k + 1));
    TailsDistinct(u, m, k, k);
    TailsDistinct(u, m, k, k + 1);
    AppendFresh(xs, Tail(u, k), Tail(u, k + 1), Absorbing(Tail(u, k), Options('1')));
    TailsSnoc(u, m, k);
  }

  lemma PairDistinct(x: string, y: string)
    requires x != y
    ensures Distinct([x, y]) == [x, y]
  {
    DistinctSnoc([], x);
    DistinctSnoc([x], y);
    assert [] + [x] == [x] && [x] + [y] == [x, y];
  }

  lemma SingleAbsorbed(x: string, options: seq<char>)
    ensures Absorbed([x], options) == Absorbing(x, options)
  {
    AbsorbedSnoc([], x, options);
    assert [] + [x] == [x];
  }

  lemma TailsStart(u: string, m: nat)
    requires u != "" && IsReading(Last(u)) && Last(Tail(u, m)) == 'i'
    ensures Distinct(Absorbed(Tails(u, m, m), Options('1'))) == Tails(u, m, m + 1)
  {
    TailsTwo(u, m);
    SingleAbsorbed(Tail(u, m), Options('1'));
    TailRow(u, m);
    PairDistinct(Tail(u, m), Tail(u, m + 1));
  }

  lemma TailsTwo(u: string, m: nat)
    requires u != "" && IsReading(Last(u))
    ensures Tails(u, m, m) == [Tail(u, m)] && Tails(u, m, m + 1) == [Tail(u, m), Tail(u, m + 1)]
    ensures Tail(u, m) != Tail(u, m + 1)
  {
    assert |Tail(u, m)| != |Tail(u, m + 1)|;
  }

  lemma {:induction false} TailsStep(u: string, m: nat, k: nat)
    requires u != "" && IsReading(Last(u)) && m <= k && Last(Tail(u, m)) == 'i'
    ensures Distinct(Absorbed(Tails(u, m, k), Options('1'))) == Tails(u, m, k + 1)
    decreases k
  {
    if m == k {
      TailsStart(u, m);
    } else {
      TailsStep(u, m, k - 1);
      TailsNext(u, m, k - 1);
    }
  }

  lemma TailsNext(u: string, m: nat, k: nat)
    requires u != "" && IsReading(Last(u)) && m <= k
    requires Distinct(Absorbed(Tails(u, m, k), Options('1'))) == Tails(u, m, k + 1)
    ensures Distinct(Absorbed(Tails(u, m, k + 1), Options('1'))) == Tails(u, m, k + 2)
  {
    var ts, t := Tails(u, m, k), Tail(u, k + 1);
    assert Tails(u, m, k + 1) == ts + [t] by { TailsSnoc(u, m, k); }
    AbsorbedSnoc(ts, t, Options('1'));
    AppendTail(u, Absorbed(ts, Options('1')), m, k + 1);
  }

  lemma ClosedStep(u: string, k: nat)
    requires u != "" && IsReading(Last(u)) && 1 <= k
    ensures Distinct(Absorbed(Closed(u, k), Options('1'))) == Closed(u, k + 1)
  {
    var m := First(u);
    TailsStep(u, m, k);
    if m == 0 {
      assert Closed(u, k) == Tails(u, m, k) && Closed(u, k + 1) == Tails(u, m, k + 1);
    } else {
      var xs := Absorbed(Tails(u, 1, k), Options('1'));
      AbsorbedSnoc(Tails(u, 1, k), u, Options('1'));
      AppendSelf(u, xs, k + 1);
    }
  }

  lemma AppendSelf(u: string, xs: seq<string>, k: nat)
    requires u != "" && Last(u) == 'l' && 1 <= k && Distinct(xs) == Tails(u, 1, k)
    ensures Distinct(xs + Absorbing(u, Options('1'))) == Tails(u, 1, k) + [u]
  {
    TailRow(u, 0);
    TailsDistinct(u, 1, k, 1);
    TailsDistinct(u, 1, k, 0);
    DistinctMembers(xs, Tail(u, 1));
    DistinctMembers(xs, u);
    AppendFresh(xs, Tail(u, 1), u, Absorbing(u, Options('1')));
  }

  lemma ClosedStartL(u: string)
    requires u != "" && Last(u) == 'l'
    ensures Distinct(Absorbed([u], Options('1'))) == Closed(u, 1)
  {
    TailRow(u, 0);
    SingleAbsorbed(u, Options('1'));
    TailsTwo(u, 0);
    TailsTwo(u, 1);
    PairDistinct(Tail(u, 1), u);
  }

  lemma ClosedStart(u: string)
    requires u != "" && IsReading(Last(u))
    ensures Distinct(Absorbed([u], Options('1'))) == Closed(u, 1)
  {
    if Last(u) == 'i' {
      TailsStart(u, 0);
      TailsTwo(u, 0);
    } else {
      ClosedStartL(u);
    }
  }

  /** What a run of ones makes of one string, repetitions aside. */
  lemma {:induction false} OnesClosed(u: string, k: nat)
    requires u != "" && IsReading(Last(u)) && 1 <= k
    ensures Distinct(Reads([u], OnesOf(k))) == Closed(u, k)
  {
    assert OnesOf(k)[..k - 1] == OnesOf(k - 1);
    if k == 1 {
      ClosedStart(u);
    } else {
      OnesClosed(u, k - 1);
      DistinctAbsorbed(Reads([u], OnesOf(k - 1)), Options('1'));
      ClosedStep(u, k - 1);
    }
  }

  // ---------------------------------------------------------------------
  // Between two readings, the longest tail is absorbed
  // ---------------------------------------------------------------------

  lemma DistinctInsert(xs: seq<string>, y: string, zs: seq<string>)
    requires y in xs
    ensures Distinct(xs + [y] + zs) == Distinct(xs + zs)
  {
    DistinctSnoc(xs, y);
    DistinctHead(xs + [y], xs, zs);
  }

  /** The tail after the last one says nothing new before the letter that ends it. */
  lemma LongestAbsorbed(u: string, m: nat, k: nat, q: char, rest: seq<string>)
    requires u != "" && IsReading(Last(u)) && IsReading(q) && m <= k && Last(Tail(u, k + 1)) == q
    ensures Distinct(Absorbed(Tails(u, m, k + 1) + rest, [q])) == Distinct(Absorbed(Tails(u, m, k) + rest, [q]))
  {
    var ts, t := Tails(u, m, k), Tail(u, k + 1);
    assert Tails(u, m, k + 1) == ts + [t] by { TailsSnoc(u, m, k); }
    assert t in Absorbed(ts, [q]) && Absorbing(t, [q]) == [t] by {
      TailAbsorbs(u, k, q);
      TailAbsorbs(u, k + 1, q);
      TailsDistinct(u, m, k, k);
      AbsorbedMember(ts, Tail(u, k), [q]);
      assert Absorbing(Tail(u, k), [q])[0] == t;
    }
    InsertAbsorbed(ts, t, rest, q);
  }

  lemma LongestClosed(u: string, k: nat, q: char)
    requires u != "" && IsReading(Last(u)) && IsReading(q) && 1 <= k && (Last(u) == q <==> k % 2 == 1)
    ensures Distinct(Absorbed(Closed(u, k + 1), [q])) == Distinct(Absorbed(Closed(u, k), [q]))
  {
    LongestAbsorbed(u, First(u), k, q, Late(u));
  }

  lemma InsertAbsorbed(ts: seq<string>, t: string, rest: seq<string>, q: char)
    requires t in Absorbed(ts, [q]) && Absorbing(t, [q]) == [t]
    ensures Distinct(Absorbed(ts + [t] + rest, [q])) == Distinct(Absorbed(ts + rest, [q]))
  {
    AbsorbedConcat(ts, rest, [q]);
    AbsorbedConcat(ts + [t], rest, [q]);
    AbsorbedSnoc(ts, t, [q]);
    DistinctInsert(Absorbed(ts, [q]), t, Absorbed(rest, [q]));
  }

  /** A run of ones, up to repetitions, of the single string in `vs`. */
  lemma RunClosed(u: string, k: nat, vs: seq<string>, run: string, xs: seq<string>)
    requires u != "" && IsReading(Last(u)) && 1 <= k && vs == [u] && run == OnesOf(k) && xs == Closed(u, k)
    ensures Distinct(Reads(vs, run)) == xs
  {
    OnesClosed(u, k);
  }

  lemma PairSame(u: string, k: nat, q: char, shorter: seq<string>, longer: seq<string>)
    requires u != "" && IsReading(Last(u)) && IsReading(q) && 1 <= k && (Last(u) == q <==> k % 2 == 1)
    requires shorter == Closed(u, k) && longer == Closed(u, k + 1)
    ensures Distinct(Absorbed(longer, [q])) == Distinct(Absorbed(shorter, [q]))
  {
    LongestClosed(u, k, q);
  }

  /** One more '1' changes nothing for one string that the next letter follows. */
  lemma OneStringSame(u: string, k: nat, q: char, vs: seq<string>, run: string, longerRun: string)
    requires u != "" && IsReading(Last(u)) && IsReading(q) && 1 <= k && (Last(u) == q <==> k % 2 == 1)
    requires vs == [u] && run == OnesOf(k) && longerRun == OnesOf(k + 1)
    ensures Distinct(Reads(vs, longerRun + [q])) == Distinct(Reads(vs, run + [q]))
  {
    var shorter, longer := Closed(u, k), Closed(u, k + 1);
    PairSame(u, k, q, shorter, longer);
    RunClosed(u, k, vs, run, shorter);
    RunClosed(u, k + 1, vs, longerRun, longer);
    SameThen(vs, run, vs, longerRun, q, shorter, longer);
  }

  /** What the next letter makes of two texts that come to `xs` and `ys` is the same. */
  lemma SameThen(vs: seq<string>, text: string, ws: seq<string>, other: string, q: char,
                 xs: seq<string>, ys: seq<string>)
    requires IsReading(q) && Distinct(Reads(vs, text)) == xs && Distinct(Reads(ws, other)) == ys
    requires Distinct(Absorbed(ys, [q])) == Distinct(Absorbed(xs, [q]))
    ensures Distinct(Reads(ws, other + [q])) == Distinct(Reads(vs, text + [q]))
  {
    ReadsThen(vs, text, q, xs);
    ReadsThen(ws, other, q, ys);
  }

  lemma ReadingStays(q: char)
    requires IsReading(q)
    ensures Options(q) == [q]
  {
  }

  lemma ReadsThen(vs: seq<string>, text: string, q: char, xs: seq<string>)
    requires IsReading(q) && Distinct(Reads(vs, text)) == xs
    ensures Distinct(Reads(vs, text + [q])) == Distinct(Absorbed(xs, [q]))
  {
    ReadingStays(q);
    ReadsSnoc(vs, text, q);
    DistinctAbsorbed(Reads(vs, text), [q]);
  }

  lemma {:induction false} AllStringsSame(us: seq<string>, k: nat, p: char, q: char)
    requires IsReading(p) && IsReading(q) && 1 <= k && (p == q <==> k % 2 == 1)
    requires forall u :: u in us ==> u != "" && Last(u) == p
    ensures Distinct(Reads(us, OnesOf(k + 1) + [q])) == Distinct(Reads(us, OnesOf(k) + [q]))
  {
    if us == [] {
      NothingRead(OnesOf(k + 1) + [q]);
      NothingRead(OnesOf(k) + [q]);
    } else {
      var front, u := us[..|us| - 1], us[|us| - 1];
      assert us == front + [u] && u in us;
      assert forall v :: v in front ==> v in us;
      AllStringsSame(front, k, p, q);
      OneStringSame(u, k, q, [u], OnesOf(k), OnesOf(k + 1));
      ReadsConcat(front, [u], OnesOf(k) + [q]);
      ReadsConcat(front, [u], OnesOf(k + 1) + [q]);
      DistinctBoth(Reads(front, OnesOf(k + 1) + [q]), Reads(front, OnesOf(k) + [q]),
                   Reads([u], OnesOf(k + 1) + [q]), Reads([u], OnesOf(k) + [q]));
    }
  }

  lemma {:induction false} NothingRead(text: string)
    ensures Reads([], text) == []
  {
    if text != "" {
      NothingRead(text[..|text| - 1]);
    }
  }

  lemma CollapseLast(s: string)
    requires s != ""
    ensures Collapse(s) != "" && Last(Collapse(s)) == Last(s)
  {
    assert s == s[..|s| - 1] + [Last(s)];
    CollapseSnoc(s[..|s| - 1], Last(s));
  }

  /** All collapsed expansions of a text that ends in a letter end in it. */
  lemma EndInLast(a: string, u: string)
    requires a != "" && IsReading(Last(a)) && u in CollapseAll(Expansions(a))
    ensures u != "" && Last(u) == Last(a)
  {
    var xs := Expansions(a);
    var i :| 0 <= i < |xs| && CollapseAll(xs)[i] == u;
    assert xs[i] in xs;
    ExpansionsExact(a, xs[i]);
    ExpansionEnds(a, xs[i]);
    CollapseLast(xs[i]);
  }

  lemma ExpansionEnds(a: string, w: string)
    requires a != "" && IsReading(Last(a)) && IsExpansion(a, w)
    ensures w != "" && Last(w) == Last(a)
  {
    ReadingStays(Last(a));
    assert w[|a| - 1] in Options(a[|a| - 1]);
  }

  lemma ReadsParts(us: seq<string>, a: string, m: string, q: char, rest: string, s: string)
    requires us == CollapseAll(Expansions(a)) && s == a + m + ([q] + rest)
    ensures CollapseAll(Expansions(s)) == Reads(Reads(us, m + [q]), rest)
  {
    var text := m + [q] + rest;
    assert s == a + text;
    ReadsOn(us, a, text, s);
    ReadsText(us, m + [q], rest);
  }

  lemma SameAround(a: string, k: nat, q: char, rest: string)
    requires a != "" && 1 <= k && IsReading(Last(a)) && IsReading(q) && (Last(a) == q <==> k % 2 == 1)
    ensures Distinct(CollapseAll(Expansions(a + OnesOf(k + 1) + ([q] + rest)))) ==
            Distinct(CollapseAll(Expansions(a + OnesOf(k) + ([q] + rest))))
  {
    var us := CollapseAll(Expansions(a));
    forall u | u in us ensures u != "" && Last(u) == Last(a) {
      EndInLast(a, u);
    }
    var longer, shorter := OnesOf(k + 1), OnesOf(k);
    AllStringsSame(us, k, Last(a), q);
    ReadsParts(us, a, shorter, q, rest, a + shorter + ([q] + rest));
    ReadsParts(us, a, longer, q, rest, a + longer + ([q] + rest));
    SameReads(Reads(us, longer + [q]), Reads(us, shorter + [q]), rest);
  }

  lemma BetweenReadingsSame(a: string, k: nat, b: string)
    requires 1 <= k && BetweenReadings(a, k, b)
    ensures Distinct(CollapseAll(Expansions(a + OnesOf(k + 1) + b))) ==
            Distinct(CollapseAll(Expansions(a + OnesOf(k) + b)))
  {
    assert b == [b[0]] + b[1..];
    SameAround(a, k, b[0], b[1..]);
  }

  // ---------------------------------------------------------------------
  // Anywhere else, one more '1' gives a longer variant
  // ---------------------------------------------------------------------

  /** `n` letters i and l taking turns. */
  function Turns(start: char, n: nat): (t: string)
    requires IsReading(start)
    ensures |t| == n && forall i :: 0 <= i < n ==> t[i] == if i % 2 == 0 then start else Other(start)
  {
    if n == 0 then "" else Turns(start, n - 1) + [if n % 2 == 1 then start else Other(start)]
  }

  lemma TurnsNext(start: char, n: nat) returns (c: char)
    requires IsReading(start)
    ensures Turns(start, n + 1) == Turns(start, n) + [c] && (n != 0 ==> Last(Turns(start, n)) != c)
  {
    c := Turns(start, n + 1)[n];
  }

  lemma {:induction false} TurnsCollapse(start: char, n: nat)
    requires IsReading(start)
    ensures Collapse(Turns(start, n)) == Turns(start, n)
  {
    if 0 < n {
      TurnsCollapse(start, n - 1);
      var c := TurnsNext(start, n - 1);
      CollapseSnoc(Turns(start, n - 1), c);
      AbsorbNew(Turns(start, n - 1), c);
    }
  }

  lemma {:induction false} CollapseShorter(u: string, v: string)
    ensures |Collapse(u + v)| <= |Collapse(u)| + |Collapse(v)|
  {
    if v == "" {
      assert u + v == u;
    } else {
      var front, c := v[..|v| - 1], Last(v);
      CollapseShorter(u, front);
      assert u + v == u + front + [c] && v == front + [c];
      CollapseSnoc(u + front, c);
      CollapseSnoc(front, c);
      if front != "" {
        CollapseLast(u + front);
        CollapseLast(front);
      }
    }
  }

  /** The two parts collapse apart. */
  ghost predicate Apart(u: string, v: string) { Collapse(u + v) == Collapse(u) + Collapse(v) }

  lemma ApartNext(u: string, front: string, c: char)
    requires Apart(u, front) && (front == "" ==> u == "" || Last(u) != c)
    ensures Apart(u, front + [c])
  {
    assert u + (front + [c]) == u + front + [c];
    CollapseSnoc(u + front, c);
    CollapseSnoc(front, c);
    AbsorbApart(u, front, c);
  }

  lemma ApartEmpty(u: string)
    ensures Apart(u, "")
  {
    assert u + "" == u;
  }

  /** They do when their border letters differ. */
  lemma {:induction false} CollapseApart(u: string, v: string)
    requires u == "" || v == "" || Last(u) != v[0]
    ensures Apart(u, v)
  {
    if v == "" {
      ApartEmpty(u);
    } else {
      var front, c := v[..|v| - 1], Last(v);
      CollapseApart(u, front);
      ApartNext(u, front, c);
      assert v == front + [c];
    }
  }

  lemma AbsorbLater(x: string, y: string, c: char)
    requires y != ""
    ensures Absorb(x + y, c) == x + Absorb(y, c)
  {
    assert Last(x + y) == Last(y);
    assert x + y + [c] == x + (y + [c]);
  }

  lemma AbsorbNew(x: string, c: char)
    requires x == "" || Last(x) != c
    ensures Absorb(x, c) == x + [c]
  {
  }

  lemma AbsorbApart(u: string, front: string, c: char)
    requires front == "" ==> u == "" || Last(u) != c
    ensures Absorb(Collapse(u) + Collapse(front), c) == Collapse(u) + Absorb(Collapse(front), c)
  {
    if front != "" {
      CollapseLast(front);
      AbsorbLater(Collapse(u), Collapse(front), c);
    } else {
      if u != "" {
        CollapseLast(u);
      }
      AbsorbNew(Collapse(u), c);
      AbsorbNew("", c);
      assert Collapse(u) + "" == Collapse(u) && "" + [c] == [c];
    }
  }

  lemma {:induction false} LongestOf(xs: seq<string>) returns (i: nat)
    requires xs != []
    ensures i < |xs| && forall j :: 0 <= j < |xs| ==> |xs[j]| <= |xs[i]|
  {
    i := 0;
    if 1 < |xs| {
      i := LongestOf(xs[..|xs| - 1]);
      assert forall j :: 0 <= j < |xs| - 1 ==> xs[j] == xs[..|xs| - 1][j];
      if |xs[i]| < |xs[|xs| - 1]| {
        i := |xs| - 1;
      }
    }
  }

  /** An expansion that stays longest when collapsed. */
  lemma Longest(s: string) returns (w: string)
    ensures IsExpansion(s, w) && forall v :: IsExpansion(s, v) ==> |Collapse(v)| <= |Collapse(w)|
  {
    var xs := Expansions(s);
    ExpansionsCount(s);
    Pow2Monotonic(0, Ones(s));
    var i := LongestOf(CollapseAll(xs));
    w := xs[i];
    assert w in xs;
    ExpansionsExact(s, w);
    forall v | IsExpansion(s, v) ensures |Collapse(v)| <= |Collapse(w)| {
      ExpansionsExact(s, v);
      var j :| 0 <= j < |xs| && xs[j] == v;
      assert CollapseAll(xs)[j] == Collapse(v) && CollapseAll(xs)[i] == Collapse(w);
    }
  }

  /** No expansion collapses to more than its parts do. */
  lemma ExpansionParts(s: string, t: string, w: string)
    requires IsExpansion(s + t, w)
    ensures IsExpansion(s, w[..|s|]) && IsExpansion(t, w[|s|..])
  {
    forall i | 0 <= i < |s| ensures w[i] in Options(s[i]) {
      assert (s + t)[i] == s[i];
    }
    forall i | 0 <= i < |t| ensures w[|s|..][i] in Options(t[i]) {
      assert (s + t)[|s| + i] == t[i];
    }
  }

  lemma ExpansionJoined(s: string, t: string, v: string, w: string)
    requires IsExpansion(s, v) && IsExpansion(t, w)
    ensures IsExpansion(s + t, v + w)
  {
  }

  lemma PartsShorter(p: string, m: string, q: string)
    ensures |Collapse(p + m + q)| <= |Collapse(p)| + |m| + |Collapse(q)|
  {
    CollapseShorter(p + m, q);
    CollapseShorter(p, m);
    CollapseShrinks(m);
  }

  lemma ThreeParts(a: string, k: nat, b: string, w: string) returns (p: string, m: string, q: string)
    requires IsExpansion(a + OnesOf(k) + b, w)
    ensures w == p + m + q && |m| == k && IsExpansion(a, p) && IsExpansion(b, q)
  {
    ExpansionParts(a + OnesOf(k), b, w);
    var front := w[..|a| + k];
    ExpansionParts(a, OnesOf(k), front);
    p, m, q := front[..|a|], front[|a|..], w[|a| + k..];
  }

  lemma PartsBound(a: string, k: nat, b: string, x: string, y: string, w: string)
    requires forall v :: IsExpansion(a, v) ==> |Collapse(v)| <= |Collapse(x)|
    requires forall v :: IsExpansion(b, v) ==> |Collapse(v)| <= |Collapse(y)|
    requires IsExpansion(a + OnesOf(k) + b, w)
    ensures |Collapse(w)| <= |Collapse(x)| + k + |Collapse(y)|
  {
    var p, m, q := ThreeParts(a, k, b, w);
    PartsShorter(p, m, q);
  }

  lemma TurnsExpand(a: string, n: nat, b: string, x: string, start: char, y: string)
    requires IsExpansion(a, x) && IsExpansion(b, y) && IsReading(start)
    ensures IsExpansion(a + OnesOf(n) + b, x + Turns(start, n) + y)
  {
    assert IsExpansion(OnesOf(n), Turns(start, n));
    ExpansionJoined(a, OnesOf(n), x, Turns(start, n));
    ExpansionJoined(a + OnesOf(n), b, x + Turns(start, n), y);
  }

  /** Turns that meet a different letter on either side collapse with neither. */
  lemma TurnsApart(x: string, start: char, n: nat, y: string)
    requires IsReading(start) && 1 <= n
    requires x == "" || Last(x) != start
    requires y == "" || y[0] != Last(Turns(start, n))
    ensures |Collapse(x + Turns(start, n) + y)| == |Collapse(x)| + n + |Collapse(y)|
  {
    CollapseApart(x, Turns(start, n));
    TurnsCollapse(start, n);
    assert Last(x + Turns(start, n)) == Last(Turns(start, n));
    CollapseApart(x + Turns(start, n), y);
  }

  /** A letter other than '1' reads as i or l only if it is one. */
  lemma ReadingIsItself(c: char, r: char)
    requires c != '1' && r in Options(c) && IsReading(r)
    ensures c == r
  {
  }

  /** Where the turns must start to touch neither neighbour. */
  function Start(a: string, k: nat, b: string): (start: char)
    requires 1 <= k
    ensures IsReading(start)
  {
    if a != "" && IsReading(Last(a)) then Other(Last(a))
    else if b != "" && b[0] == (if k % 2 == 0 then 'i' else 'l') then 'l'
    else 'i'
  }

  lemma StartApart(a: string, k: nat, b: string, x: string, y: string)
    requires 1 <= k && (a == "" || Last(a) != '1') && (b == "" || b[0] != '1') && !BetweenReadings(a, k, b)
    requires IsExpansion(a, x) && IsExpansion(b, y)
    ensures x == "" || Last(x) != Start(a, k, b)
    ensures y == "" || y[0] != Last(Turns(Start(a, k, b), k + 1))
  {
    var start := Start(a, k, b);
    if x != "" && Last(x) == start {
      assert x[|x| - 1] in Options(a[|x| - 1]);
      ReadingIsItself(Last(a), start);
    }
    if y != "" && IsReading(y[0]) {
      assert y[0] in Options(b[0]);
      ReadingIsItself(b[0], y[0]);
    }
  }

  lemma AllVariants(s: string, w: string)
    requires Ones(s) <= 12
    ensures w in Variants(s) <==> exists e :: IsExpansion(s, e) && Collapse(e) == w
  {
    var xs := Expansions(s);
    NothingTruncated(s);
    DistinctMembers(CollapseAll(xs), w);
    if w in CollapseAll(xs) {
      var i :| 0 <= i < |xs| && CollapseAll(xs)[i] == w;
      assert xs[i] in xs;
      ExpansionsExact(s, xs[i]);
    }
    if e :| IsExpansion(s, e) && Collapse(e) == w {
      ExpansionsExact(s, e);
      var i :| 0 <= i < |xs| && xs[i] == e;
      assert CollapseAll(xs)[i] == w;
    }
  }

  lemma TurnsLonger(a: string, k: nat, b: string, x: string, y: string) returns (w: string)
    requires 1 <= k && (a == "" || Last(a) != '1') && (b == "" || b[0] != '1') && !BetweenReadings(a, k, b)
    requires IsExpansion(a, x) && IsExpansion(b, y)
    ensures IsExpansion(a + OnesOf(k + 1) + b, w) && |Collapse(w)| == |Collapse(x)| + k + 1 + |Collapse(y)|
  {
    var start, n := Start(a, k, b), k + 1;
    StartApart(a, k, b, x, y);
    TurnsExpand(a, n, b, x, start, y);
    TurnsApart(x, start, n, y);
    w := x + Turns(start, n) + y;
  }

  /** An expansion of the longer run that collapses to more than any of the shorter one. */
  lemma LongerExpansion(a: string, k: nat, b: string) returns (w: string)
    requires 1 <= k && (a == "" || Last(a) != '1') && (b == "" || b[0] != '1') && !BetweenReadings(a, k, b)
    ensures IsExpansion(a + OnesOf(k + 1) + b, w)
    ensures forall e :: IsExpansion(a + OnesOf(k) + b, e) ==> |Collapse(e)| < |Collapse(w)|
  {
    var x := Longest(a);
    var y := Longest(b);
    w := TurnsLonger(a, k, b, x, y);
    forall e | IsExpansion(a + OnesOf(k) + b, e) ensures |Collapse(e)| < |Collapse(w)| {
      PartsBound(a, k, b, x, y, e);
    }
  }

  lemma ElsewhereDifferent(a: string, k: nat, b: string)
    requires 1 <= k && (a == "" || Last(a) != '1') && (b == "" || b[0] != '1') && !BetweenReadings(a, k, b)
    requires Ones(a + OnesOf(k) + b) <= 12 && Ones(a + OnesOf(k + 1) + b) <= 12
    ensures Variants(a + OnesOf(k + 1) + b) != Variants(a + OnesOf(k) + b)
  {
    var w := LongerExpansion(a, k, b);
    AllVariants(a + OnesOf(k + 1) + b, Collapse(w));
    AllVariants(a + OnesOf(k) + b, Collapse(w));
  }

  // ---------------------------------------------------------------------
  // Exactly
  // ---------------------------------------------------------------------

  lemma {:induction false} OnesConcat(s: string, t: string)
    ensures Ones(s + t) == Ones(s) + Ones(t)
  {
    if t == "" {
      assert s + t == s;
    } else {
      assert (s + t)[..|s + t| - 1] == s + t[..|t| - 1];
      OnesConcat(s, t[..|t| - 1]);
    }
  }

  lemma {:induction false} OnesInRun(k: nat)
    ensures Ones(OnesOf(k)) == k
  {
    if 0 < k {
      assert OnesOf(k)[..k - 1] == OnesOf(k - 1);
      OnesInRun(k - 1);
    }
  }

  lemma OnesAround(a: string, k: nat, b: string)
    ensures Ones(a + OnesOf(k) + b) == Ones(a) + k + Ones(b)
  {
    OnesConcat(a + OnesOf(k), b);
    OnesConcat(a, OnesOf(k));
    OnesInRun(k);
  }

  /** Doubling a '1' in a whole run of `k` ones, at most eleven in all, leaves the
      variant list as it was if and only if the run lies between two letters it
      can read as, the same letter on both sides exactly when `k` is odd. */
  lemma DoublingOneExactly(a: string, k: nat, b: string)
    requires 1 <= k && (a == "" || Last(a) != '1') && (b == "" || b[0] != '1')
    requires Ones(a + OnesOf(k) + b) <= 11
    ensures Variants(a + OnesOf(k + 1) + b) == Variants(a + OnesOf(k) + b) <==> BetweenReadings(a, k, b)
  {
    OnesAround(a, k, b);
    OnesAround(a, k + 1, b);
    if BetweenReadings(a, k, b) {
      NothingTruncated(a + OnesOf(k) + b);
      NothingTruncated(a + OnesOf(k + 1) + b);
      BetweenReadingsSame(a, k, b);
    } else {
      ElsewhereDifferent(a, k, b);
    }
  }
}
