/** What the cap of packages/moderation/src/leetspeak.ts:35 leaves of the variants:
    the last twelve ones are read both ways, the ones before them as i. */
module LeetspeakCap {
  import opened Prelude
  import opened Leetspeak

  /** 2^FREE_ONES == MAX_VARIANTS. */
  const FREE_ONES := 12

  /** The text with every '1' but the last `n` replaced by its first reading. */
  function Fixed(s: string, n: nat): (r: string)
    ensures |r| == |s|
  {
    if s == "" then ""
    else
      var front, c := s[..|s| - 1], s[|s| - 1];
      if c != '1' then Fixed(front, n) + [c]
      else if n == 0 then Fixed(front, 0) + ['i']
      else Fixed(front, n - 1) + ['1']
  }

  function Take(xs: seq<string>, n: nat): (r: seq<string>)
    ensures |r| == Min(|xs|, n)
  {
    if n < |xs| then xs[..n] else xs
  }

  lemma {:induction false} FixedOnes(s: string, n: nat)
    ensures Ones(Fixed(s, n)) == Min(Ones(s), n)
  {
    if s != "" {
      var front, c := s[..|s| - 1], s[|s| - 1];
      FixedOnes(front, if c == '1' && n > 0 then n - 1 else n);
      OnesSnoc(Fixed(front, n), c);
      OnesSnoc(Fixed(front, 0), 'i');
      if n > 0 {
        OnesSnoc(Fixed(front, n - 1), '1');
      }
    }
  }

  lemma OnesSnoc(s: string, c: char)
    ensures Ones(s + [c]) == Ones(s) + if c == '1' then 1 else 0
  {
    assert (s + [c])[..|s|] == s;
  }

  /** The first elements of an extension extend the first elements. */
  lemma TakeExtend(vs: seq<string>, options: seq<char>, n: nat, m: nat)
    requires 1 <= |options| <= 2 && m == if |options| == 2 then 2 * n else n
    ensures Take(Extend(vs, options), m) == Extend(Take(vs, n), options)
  {
    ExtendCount(vs, options);
    if n < |vs| {
      ExtendPrefix(vs, options, n);
      ExtendCount(vs[..n], options);
    }
  }

  lemma NonEmptyExpansions(s: string)
    ensures Expansions(s) != []
  {
    ExpansionsCount(s);
    Pow2Monotonic(0, Ones(s));
  }

  /** Only the first reading of a '1' in the very first expansion. */
  lemma TakeFirst(vs: seq<string>)
    requires vs != []
    ensures Take(Extend(vs, ['i', 'l']), 1) == Extend(Take(vs, 1), ['i'])
  {
    TakeExtend(vs, ['i', 'l'], 1, 2);
    assert Take(vs, 1) == [vs[0]];
    SingleExtend(vs[0], ['i', 'l']);
    SingleExtend(vs[0], ['i']);
    assert Take(Extend(vs, ['i', 'l']), 2)[0] == vs[0] + ['i'];
  }

  lemma SingleExtend(v: string, options: seq<char>)
    ensures Extend([v], options) == Row(v, options)
  {
    assert [v][..0] == [];
  }

  /** The first 2^n expansions are the expansions with the earlier ones fixed. */
  ghost predicate StartWith(s: string, n: nat, fixed: string) {
    Take(Expansions(s), Pow2(n)) == Expansions(fixed)
  }

  lemma PlainNext(front: string, c: char, n: nat, fixed: string)
    requires c != '1' && StartWith(front, n, fixed)
    ensures StartWith(front + [c], n, fixed + [c])
  {
    ExpansionsSnoc(front, c);
    ExpansionsSnoc(fixed, c);
    TakeExtend(Expansions(front), Options(c), Pow2(n), Pow2(n));
  }

  lemma FreeNext(front: string, n: nat, fixed: string)
    requires StartWith(front, n, fixed)
    ensures StartWith(front + ['1'], n + 1, fixed + ['1'])
  {
    ExpansionsSnoc(front, '1');
    ExpansionsSnoc(fixed, '1');
    TakeExtend(Expansions(front), Options('1'), Pow2(n), Pow2(n + 1));
  }

  lemma FixedNext(front: string, fixed: string)
    requires StartWith(front, 0, fixed)
    ensures StartWith(front + ['1'], 0, fixed + ['i'])
  {
    ExpansionsSnoc(front, '1');
    ExpansionsSnoc(fixed, 'i');
    NonEmptyExpansions(front);
    TakeFirst(Expansions(front));
  }

  lemma {:induction false} FirstExpansions(s: string, n: nat)
    ensures StartWith(s, n, Fixed(s, n))
  {
    if s == "" {
      Pow2Monotonic(0, n);
    } else {
      var front, c := s[..|s| - 1], s[|s| - 1];
      assert s == front + [c];
      if c != '1' {
        FirstExpansions(front, n);
        PlainNext(front, c, n, Fixed(front, n));
      } else if n == 0 {
        FirstExpansions(front, 0);
        FixedNext(front, Fixed(front, 0));
      } else {
        FirstExpansions(front, n - 1);
        FreeNext(front, n - 1, Fixed(front, n - 1));
      }
    }
  }

  lemma CapIsPow2()
    ensures Pow2(FREE_ONES) == MAX_VARIANTS
  {
    assert Pow2(4) == 16 && Pow2(8) == 256;
  }

  /** The cap exactly: what is left are all expansions with all but the last
      twelve ones read as i. */
  lemma CapFixes(s: string)
    ensures Truncate(Expansions(s)) == Expansions(Fixed(s, FREE_ONES))
  {
    CapIsPow2();
    FirstExpansions(s, FREE_ONES);
  }

  lemma VariantsExactly(s: string, v: string)
    ensures v in Variants(s) <==> exists w :: IsExpansion(Fixed(s, FREE_ONES), w) && Collapse(w) == v
  {
    CapFixes(s);
    var fixed := Fixed(s, FREE_ONES);
    var xs := Expansions(fixed);
    DistinctMembers(CollapseAll(xs), v);
    if v in CollapseAll(xs) {
      var i :| 0 <= i < |xs| && CollapseAll(xs)[i] == v;
      assert xs[i] in xs;
      ExpansionsExact(fixed, xs[i]);
    }
    if w :| IsExpansion(fixed, w) && Collapse(w) == v {
      ExpansionsExact(fixed, w);
      var i :| 0 <= i < |xs| && xs[i] == w;
      assert CollapseAll(xs)[i] == v;
    }
  }

  /** The gate exactly, with any number of ones: a name is blocked unless it is
      allow-listed, when it is bad itself or some reading of its digits, the ones
      before the last twelve read as i, is bad after collapsing. */
  lemma GateExactly(lower: string -> string, allow: set<string>, bad: string -> bool, tag: string)
    ensures var l := lower(tag); var fixed := Fixed(StripUnderscores(lower(l)), FREE_ONES);
            BlockedName(lower, allow, bad, tag) <==>
            l !in allow && (bad(l) || exists w :: IsExpansion(fixed, w) && bad(Collapse(w)))
  {
    var prepared := StripUnderscores(lower(lower(tag)));
    if v :| v in Variants(prepared) && bad(v) {
      VariantsExactly(prepared, v);
    }
    if w :| IsExpansion(Fixed(prepared, FREE_ONES), w) && bad(Collapse(w)) {
      VariantsExactly(prepared, Collapse(w));
    }
  }
}
