/** Leetspeak variants of a name, and the profanity gate that checks them
    (packages/moderation/src/leetspeak.ts, packages/moderation/src/profanity.ts). */
module Leetspeak {
  import opened Prelude
  import opened Text

  const MAX_VARIANTS := 4096

  /** The letters a character can stand for; only '1' is ambiguous. */
  function Options(c: char): (options: seq<char>)
    ensures |options| == if c == '1' then 2 else 1
  {
    match c
    case '0' => ['o']
    case '1' => ['i', 'l']
    case '2' => ['z']
    case '3' => ['e']
    case '4' => ['a']
    case '5' => ['s']
    case '6' => ['g']
    case '7' => ['t']
    case '8' => ['b']
    case '9' => ['g']
    case _ => [c]
  }

  // ---------------------------------------------------------------------
  // The full expansion product
  // ---------------------------------------------------------------------

  function Row(v: string, options: seq<char>): seq<string> {
    seq(|options|, b requires 0 <= b < |options| => v + [options[b]])
  }

  /** Every string of `vs` followed by every option; the string varies slowest. */
  function Extend(vs: seq<string>, options: seq<char>): (r: seq<string>) {
    if vs == [] then [] else Extend(vs[..|vs| - 1], options) + Row(vs[|vs| - 1], options)
  }

  /** The product of the options of all characters of `s`, untruncated. */
  function Expansions(s: string): seq<string> {
    if s == "" then [""] else Extend(Expansions(s[..|s| - 1]), Options(s[|s| - 1]))
  }

  function Truncate<T>(xs: seq<T>): seq<T> {
    if |xs| <= MAX_VARIANTS then xs else xs[..MAX_VARIANTS]
  }

  function Ones(s: string): nat {
    if s == "" then 0 else Ones(s[..|s| - 1]) + if s[|s| - 1] == '1' then 1 else 0
  }

  ghost predicate IsExpansion(s: string, w: string) {
    |w| == |s| && forall i :: 0 <= i < |s| ==> w[i] in Options(s[i])
  }

  ghost predicate DiffersAt(u: string, v: string, k: nat) {
    k < |u| && k < |v| && u[..k] == v[..k] && u[k] < v[k]
  }

  /** Strict lexicographic order on strings of one length. */
  ghost predicate Precedes(u: string, v: string) {
    |u| == |v| && exists k :: DiffersAt(u, v, k)
  }

  ghost predicate StrictlySorted(xs: seq<string>) {
    forall a, b :: 0 <= a < b < |xs| ==> Precedes(xs[a], xs[b])
  }

  lemma {:induction false} ExtendMembers(vs: seq<string>, options: seq<char>, w: string)
    ensures w in Extend(vs, options) <==> w != "" && w[..|w| - 1] in vs && w[|w| - 1] in options
  {
    if vs != [] {
      var front, last := vs[..|vs| - 1], vs[|vs| - 1];
      ExtendMembers(front, options, w);
      assert vs == front + [last];
      assert w in Row(last, options) <==> w != "" && w[..|w| - 1] == last && w[|w| - 1] in options by {
        if w != "" && w[..|w| - 1] == last && w[|w| - 1] in options {
          var b :| 0 <= b < |options| && options[b] == w[|w| - 1];
          assert w == Row(last, options)[b];
        }
      }
    }
  }

  lemma {:induction false} ExtendCount(vs: seq<string>, options: seq<char>)
    requires 1 <= |options| <= 2
    ensures |Extend(vs, options)| == if |options| == 2 then 2 * |vs| else |vs|
  {
    if vs != [] {
      ExtendCount(vs[..|vs| - 1], options);
    }
  }

  /** 2^k expansions, k the number of '1' characters. */
  lemma {:induction false} ExpansionsCount(s: string)
    ensures |Expansions(s)| == Pow2(Ones(s))
  {
    if s != "" {
      ExpansionsCount(s[..|s| - 1]);
      ExtendCount(Expansions(s[..|s| - 1]), Options(s[|s| - 1]));
    }
  }

  lemma IsExpansionLast(s: string, w: string)
    requires s != "" && w != ""
    ensures IsExpansion(s, w) <==>
            IsExpansion(s[..|s| - 1], w[..|w| - 1]) && w[|w| - 1] in Options(s[|s| - 1])
  {
    var front, wFront := s[..|s| - 1], w[..|w| - 1];
    if IsExpansion(front, wFront) && w[|w| - 1] in Options(s[|s| - 1]) {
      forall i | 0 <= i < |s| ensures w[i] in Options(s[i]) {
        if i < |front| {
          assert wFront[i] in Options(front[i]);
        }
      }
    }
  }

  /** Nothing is missing from the product and nothing else is in it. */
  lemma {:induction false} ExpansionsExact(s: string, w: string)
    ensures w in Expansions(s) <==> IsExpansion(s, w)
  {
    if s != "" {
      ExtendMembers(Expansions(s[..|s| - 1]), Options(s[|s| - 1]), w);
      if w != "" {
        ExpansionsExact(s[..|s| - 1], w[..|w| - 1]);
        IsExpansionLast(s, w);
      }
    }
  }

  /** How the ten digits read, with no choice but that of the one. */
  lemma DigitsRead(w: string)
    ensures IsExpansion("0123456789", w) <==> w == "oizeasgtbg" || w == "olzeasgtbg"
  {
    if IsExpansion("0123456789", w) {
      assert w[0] in Options('0') && w[1] in Options('1') && w[2] in Options('2') && w[3] in Options('3') &&
             w[4] in Options('4') && w[5] in Options('5') && w[6] in Options('6') && w[7] in Options('7') &&
             w[8] in Options('8') && w[9] in Options('9');
      assert w == [w[0], w[1], w[2], w[3], w[4], w[5], w[6], w[7], w[8], w[9]];
    }
  }

  /** Everything but a digit stands for itself. */
  lemma OthersRead(c: char)
    requires !('0' <= c <= '9')
    ensures Options(c) == [c]
  {
  }

  lemma PrecedesExtended(u: string, v: string, c: char, d: char)
    requires Precedes(u, v) || (u == v && c < d)
    ensures Precedes(u + [c], v + [d])
  {
    if u == v {
      assert (u + [c])[..|u|] == u == (v + [d])[..|u|];
      assert DiffersAt(u + [c], v + [d], |u|);
    } else {
      var k: nat :| DiffersAt(u, v, k);
      assert (u + [c])[..k] == u[..k] && (v + [d])[..k] == v[..k];
      assert DiffersAt(u + [c], v + [d], k);
    }
  }

  /** An extension of an earlier string comes before any of a later one. */
  lemma ExtendedBefore(front: seq<string>, last: string, options: seq<char>, x: string, d: char)
    requires forall p :: 0 <= p < |front| ==> Precedes(front[p], last)
    requires x in Extend(front, options)
    ensures Precedes(x, last + [d])
  {
    ExtendMembers(front, options, x);
    var p :| 0 <= p < |front| && front[p] == x[..|x| - 1];
    PrecedesExtended(front[p], last, x[|x| - 1], d);
    assert x == front[p] + [x[|x| - 1]];
  }

  lemma {:induction false} ExtendSorted(vs: seq<string>, options: seq<char>)
    requires StrictlySorted(vs)
    requires forall i, j :: 0 <= i < j < |options| ==> options[i] < options[j]
    ensures StrictlySorted(Extend(vs, options))
  {
    if vs != [] {
      var front, last := vs[..|vs| - 1], vs[|vs| - 1];
      ExtendSorted(front, options);
      var xs, row := Extend(front, options), Row(last, options);
      forall a, b | 0 <= a < b < |xs + row|
        ensures Precedes((xs + row)[a], (xs + row)[b])
      {
        if a < |xs| <= b {
          ExtendedBefore(front, last, options, xs[a], options[b - |xs|]);
        } else if |xs| <= a {
          PrecedesExtended(last, last, options[a - |xs|], options[b - |xs|]);
        }
      }
    }
  }

  /** The product is listed in strict lexicographic order, so without repetition. */
  lemma {:induction false} ExpansionsSorted(s: string)
    ensures StrictlySorted(Expansions(s))
  {
    if s != "" {
      ExpansionsSorted(s[..|s| - 1]);
      ExtendSorted(Expansions(s[..|s| - 1]), Options(s[|s| - 1]));
    }
  }

  // ---------------------------------------------------------------------
  // The loop, with its early breaks
  // ---------------------------------------------------------------------

  lemma {:induction false} ExtendPrefix(vs: seq<string>, options: seq<char>, a: nat)
    requires a <= |vs|
    ensures Extend(vs[..a], options) <= Extend(vs, options)
    ensures a < |vs| ==> Extend(vs[..a + 1], options) == Extend(vs[..a], options) + Row(vs[a], options)
    decreases |vs|
  {
    if a < |vs| {
      assert vs[..a + 1][..a] == vs[..a];
      assert vs[..|vs| - 1][..a] == vs[..a];
      ExtendPrefix(vs[..|vs| - 1], options, a);
    } else {
      assert vs[..a] == vs;
    }
  }

  lemma ExtendTruncated(vs: seq<string>, options: seq<char>)
    requires 1 <= |options| <= 2
    ensures Truncate(Extend(Truncate(vs), options)) == Truncate(Extend(vs, options))
  {
    ExtendCount(vs, options);
    if MAX_VARIANTS < |vs| {
      ExtendPrefix(vs, options, MAX_VARIANTS);
      ExtendCount(vs[..MAX_VARIANTS], options);
    }
  }

  /** The innermost loop: pushes `variant` with each option until the list is full. */
  method PushOptions(pushed: seq<string>, variant: string, options: seq<char>) returns (next: seq<string>)
    requires |pushed| < MAX_VARIANTS
    ensures next == Truncate(pushed + Row(variant, options))
  {
    ghost var row := Row(variant, options);
    next := pushed;
    var b := 0;
    while b < |options|
      invariant b <= |options| && next == pushed + row[..b] && |next| <= MAX_VARIANTS
      invariant b < |options| ==> |next| < MAX_VARIANTS
    {
      next := next + [variant + [options[b]]];
      b := b + 1;
      assert pushed + row[..b] <= pushed + row;
      if |next| >= MAX_VARIANTS { break; }
    }
    assert row[..|options|] == row;
  }

  /** The middle loop: one character's options appended to every variant so far. */
  method PushVariants(variants: seq<string>, options: seq<char>) returns (next: seq<string>)
    ensures next == Truncate(Extend(variants, options))
  {
    next := [];
    var a := 0;
    while a < |variants|
      invariant a <= |variants| && next == Truncate(Extend(variants[..a], options))
      invariant a < |variants| ==> |next| < MAX_VARIANTS
    {
      ExtendPrefix(variants, options, a);
      ExtendPrefix(variants, options, a + 1);
      next := PushOptions(next, variants[a], options);
      a := a + 1;
      if |next| >= MAX_VARIANTS { return; }
    }
    assert variants[..|variants|] == variants;
  }

  /** The loop over the characters computes the first MAX_VARIANTS elements of the product. */
  method ExpandVariants(prepared: string) returns (variants: seq<string>)
    ensures variants == Truncate(Expansions(prepared))
  {
    variants := [""];
    for i := 0 to |prepared|
      invariant variants == Truncate(Expansions(prepared[..i]))
    {
      ExtendTruncated(Expansions(prepared[..i]), Options(prepared[i]));
      assert prepared[..i + 1][..i] == prepared[..i];
      variants := PushVariants(variants, Options(prepared[i]));
    }
    assert prepared[..|prepared|] == prepared;
  }

  /** Below the cap, with at most twelve '1' characters, no expansion is lost. */
  lemma NothingTruncated(s: string)
    requires Ones(s) <= 12
    ensures Truncate(Expansions(s)) == Expansions(s)
  {
    ExpansionsCount(s);
    assert Pow2(4) == 16 && Pow2(8) == 256;
    assert Pow2(12) == MAX_VARIANTS;
    Pow2Monotonic(Ones(s), 12);
  }

  // ---------------------------------------------------------------------
  // Collapsing runs and removing duplicates
  // ---------------------------------------------------------------------

  /** A JavaScript regular expression's `.` without flags: one UTF-16 unit that
      ends no line. A character above U+FFFF is two different units, so its
      repetition never forms a run of equal units. */
  predicate Collapsible(c: char) {
    !IsLineTerminator(c) && c as int <= 0xFFFF
  }

  function Run(s: string, c: char): (n: nat)
    ensures n <= |s|
    ensures forall i :: 0 <= i < n ==> s[i] == c
    ensures n < |s| ==> s[n] != c
  {
    if s != "" && s[0] == c then 1 + Run(s[1..], c) else 0
  }

  /** How many leading characters the replacement turns into one. */
  function Block(s: string): (n: nat)
    requires s != ""
    ensures 1 <= n <= |s|
  {
    if Collapsible(s[0]) then Run(s, s[0]) else 1
  }

  /** Replaces each maximal run of one collapsible character by that character. */
  function Collapse(s: string): string
    decreases |s|
  {
    if s == "" then "" else [s[0]] + Collapse(s[Block(s)..])
  }

  function Absorb(w: string, c: char): string {
    if w != "" && w[|w| - 1] == c && Collapsible(c) then w else w + [c]
  }

  lemma {:induction false} RunSnoc(s: string, x: char, c: char)
    ensures Run(s + [c], x) == if Run(s, x) == |s| && c == x then |s| + 1 else Run(s, x)
  {
    if s == "" {
      assert [c][1..] == "" && s + [c] == [c];
    } else {
      assert (s + [c])[1..] == s[1..] + [c];
      RunSnoc(s[1..], x, c);
    }
  }

  lemma CollapseSingle(c: char)
    ensures Collapse([c]) == [c]
  {
    assert [c][Block([c])..] == "";
  }

  lemma BlockSnoc(s: string, c: char)
    requires s != ""
    ensures Block(s + [c]) == if Block(s) == |s| && c == s[0] && Collapsible(c) then |s| + 1 else Block(s)
  {
    RunSnoc(s, s[0], c);
  }

  lemma AbsorbCons(x: char, w: string, c: char)
    requires w != ""
    ensures Absorb([x] + w, c) == [x] + Absorb(w, c)
  {
    assert [x] + (w + [c]) == [x] + w + [c];
  }

  /** Collapsing reads its input once, left to right: appending a character
      either extends the last run or starts a new one. */
  lemma {:induction false} CollapseSnoc(s: string, c: char)
    ensures Collapse(s + [c]) == Absorb(Collapse(s), c)
    decreases |s|
  {
    if s == "" {
      assert s + [c] == [c];
      CollapseSingle(c);
    } else {
      var n, t := Block(s), s + [c];
      var rest := s[n..];
      BlockSnoc(s, c);
      if Block(t) == |t| {
        assert rest == "" && t[|t|..] == "";
      } else {
        assert t[n..] == rest + [c];
        CollapseSnoc(rest, c);
        if rest == "" {
          assert Collapse(s) == [s[0]] && Collapse(t) == [s[0]] + [c];
        } else {
          AbsorbCons(s[0], Collapse(rest), c);
        }
      }
    }
  }

  function CollapseAll(xs: seq<string>): (r: seq<string>)
    ensures |r| == |xs|
  {
    seq(|xs|, i requires 0 <= i < |xs| => Collapse(xs[i]))
  }

  /** First occurrences, in order: the insertion order of a JavaScript Set. */
  function Distinct(xs: seq<string>): seq<string> {
    if xs == [] then []
    else
      var front := Distinct(xs[..|xs| - 1]);
      if xs[|xs| - 1] in front then front else front + [xs[|xs| - 1]]
  }

  lemma {:induction false} DistinctMembers(xs: seq<string>, w: string)
    ensures w in Distinct(xs) <==> w in xs
  {
    if xs != [] {
      DistinctMembers(xs[..|xs| - 1], w);
      assert xs == xs[..|xs| - 1] + [xs[|xs| - 1]];
    }
  }

  /** No variant is listed twice. */
  lemma {:induction false} DistinctOnce(xs: seq<string>)
    ensures forall i, j :: 0 <= i < j < |Distinct(xs)| ==> Distinct(xs)[i] != Distinct(xs)[j]
  {
    if xs != [] {
      DistinctOnce(xs[..|xs| - 1]);
    }
  }

  function StripUnderscores(s: string): string {
    if s == "" then ""
    else StripUnderscores(s[..|s| - 1]) + if s[|s| - 1] == '_' then "" else [s[|s| - 1]]
  }

  function Variants(prepared: string): seq<string> {
    Distinct(CollapseAll(Truncate(Expansions(prepared))))
  }

  /** `lower` stands for String.prototype.toLowerCase. */
  method GenerateProfanityCheckVariants(lower: string -> string, tag: string) returns (r: seq<string>)
    ensures r == Variants(StripUnderscores(lower(tag)))
  {
    var variants := ExpandVariants(StripUnderscores(lower(tag)));
    r := Distinct(CollapseAll(variants));
  }

  // ---------------------------------------------------------------------
  // The gate
  // ---------------------------------------------------------------------

  /** A name is blocked unless allow-listed, when it or one of its variants
      holds bad content. `bad` stands for the profanity engine and term list. */
  ghost predicate BlockedName(lower: string -> string, allow: set<string>, bad: string -> bool, tag: string) {
    var l := lower(tag);
    l !in allow && (bad(l) || AnyBad(Variants(StripUnderscores(lower(l))), bad))
  }

  ghost predicate AnyBad(vs: seq<string>, bad: string -> bool) { exists v :: v in vs && bad(v) }

  /** What the loop over the variants finds out. */
  lemma BlockedByVariants(lower: string -> string, allow: set<string>, bad: string -> bool, tag: string,
                          vs: seq<string>)
    requires lower(tag) !in allow && !bad(lower(tag)) && vs == Variants(StripUnderscores(lower(lower(tag))))
    ensures BlockedName(lower, allow, bad, tag) <==> AnyBad(vs, bad)
  {
  }

  method IsBlockedName(lower: string -> string, allow: set<string>, bad: string -> bool, tag: string)
    returns (blocked: bool)
    ensures blocked <==> BlockedName(lower, allow, bad, tag)
  {
    var l := lower(tag);
    if l in allow { return false; }
    if bad(l) { return true; }
    var variants := GenerateProfanityCheckVariants(lower, l);
    BlockedByVariants(lower, allow, bad, tag, variants);
    blocked := CheckVariants(variants, bad);
  }

  /** The loop over the variants, with its early return. */
  method CheckVariants(variants: seq<string>, bad: string -> bool) returns (found: bool)
    ensures found <==> AnyBad(variants, bad)
  {
    for i := 0 to |variants|
      invariant forall j :: 0 <= j < i ==> !bad(variants[j])
    {
      if bad(variants[i]) { return true; }
    }
    found := false;
  }

  /** The gate is exhaustive for every name with at most twelve '1' characters:
      any reading of its digits that is bad after collapsing blocks it. */
  lemma GateExhaustive(lower: string -> string, allow: set<string>, bad: string -> bool, tag: string, w: string)
    ensures var prepared := StripUnderscores(lower(lower(tag)));
            (lower(tag) !in allow && Ones(prepared) <= 12 && IsExpansion(prepared, w) && bad(Collapse(w)))
            ==> BlockedName(lower, allow, bad, tag)
  {
    var prepared := StripUnderscores(lower(lower(tag)));
    if Ones(prepared) <= 12 && IsExpansion(prepared, w) {
      ExpansionsExact(prepared, w);
      NothingTruncated(prepared);
      var xs := Expansions(prepared);
      var i :| 0 <= i < |xs| && xs[i] == w;
      assert CollapseAll(xs)[i] == Collapse(w);
      DistinctMembers(CollapseAll(xs), Collapse(w));
    }
  }

  // ---------------------------------------------------------------------
  // Evasions that change nothing
  // ---------------------------------------------------------------------

  datatype Evasion = InsertUnderscore(at: nat) | DoubleCharacter(at: nat)

  predicate CanEvade(tag: string, e: Evasion) {
    match e
    case InsertUnderscore(at) => at <= |tag|
    case DoubleCharacter(at) => at < |tag| && tag[at] != '1' && Collapsible(tag[at])
  }

  function Evade(tag: string, e: Evasion): string
    requires CanEvade(tag, e)
  {
    match e
    case InsertUnderscore(at) => tag[..at] + "_" + tag[at..]
    case DoubleCharacter(at) => tag[..at] + [tag[at], tag[at]] + tag[at + 1..]
  }

  ghost predicate CanEvadeAll(tag: string, path: seq<Evasion>)
    decreases |path|
  {
    path == [] || (CanEvade(tag, path[0]) && CanEvadeAll(Evade(tag, path[0]), path[1..]))
  }

  ghost function EvadeAll(tag: string, path: seq<Evasion>): string
    requires CanEvadeAll(tag, path)
    decreases |path|
  {
    if path == [] then tag else EvadeAll(Evade(tag, path[0]), path[1..])
  }

  lemma {:induction false} StripConcat(a: string, b: string)
    ensures StripUnderscores(a + b) == StripUnderscores(a) + StripUnderscores(b)
  {
    if b == "" {
      assert a + b == a;
    } else {
      assert (a + b)[..|a + b| - 1] == a + b[..|b| - 1];
      StripConcat(a, b[..|b| - 1]);
    }
  }

  lemma {:induction false} ExtendSameCollapse(xs: seq<string>, ys: seq<string>, options: seq<char>)
    requires CollapseAll(xs) == CollapseAll(ys)
    ensures CollapseAll(Extend(xs, options)) == CollapseAll(Extend(ys, options))
    decreases |xs|
  {
    if xs != [] {
      var m := |xs| - 1;
      assert CollapseAll(xs[..m]) == CollapseAll(xs)[..m] == CollapseAll(ys[..m]);
      ExtendSameCollapse(xs[..m], ys[..m], options);
      assert CollapseAll(xs)[m] == CollapseAll(ys)[m];
      forall b | 0 <= b < |options|
        ensures Collapse(xs[m] + [options[b]]) == Collapse(ys[m] + [options[b]])
      {
        CollapseSnoc(xs[m], options[b]);
        CollapseSnoc(ys[m], options[b]);
      }
      var p, q := Extend(xs[..m], options), Extend(ys[..m], options);
      assert CollapseAll(p + Row(xs[m], options)) == CollapseAll(p) + CollapseAll(Row(xs[m], options));
      assert CollapseAll(q + Row(ys[m], options)) == CollapseAll(q) + CollapseAll(Row(ys[m], options));
      assert CollapseAll(Row(xs[m], options)) == CollapseAll(Row(ys[m], options));
    }
  }

  lemma {:induction false} ExtendSingle(vs: seq<string>, o: char)
    ensures |Extend(vs, [o])| == |vs|
    ensures forall k :: 0 <= k < |vs| ==> Extend(vs, [o])[k] == vs[k] + [o]
  {
    if vs != [] {
      ExtendSingle(vs[..|vs| - 1], o);
    }
  }

  lemma ExpansionsSnoc(s: string, c: char)
    ensures Expansions(s + [c]) == Extend(Expansions(s), Options(c))
  {
    assert (s + [c])[..|s|] == s;
  }

  lemma AbsorbTwice(w: string, o: char)
    requires Collapsible(o)
    ensures Absorb(Absorb(w, o), o) == Absorb(w, o)
  {
  }

  lemma ExtendTwice(vs: seq<string>, o: char)
    requires Collapsible(o)
    ensures CollapseAll(Extend(Extend(vs, [o]), [o])) == CollapseAll(Extend(vs, [o]))
  {
    var once := Extend(vs, [o]);
    ExtendSingle(vs, o);
    ExtendSingle(once, o);
    forall k | 0 <= k < |vs| ensures Collapse(once[k] + [o]) == Collapse(once[k]) {
      CollapseSnoc(vs[k], o);
      CollapseSnoc(once[k], o);
      AbsorbTwice(Collapse(vs[k]), o);
    }
  }

  lemma DoubledAtEnd(a: string, c: char)
    requires c != '1' && Collapsible(c)
    ensures CollapseAll(Expansions(a + [c] + [c])) == CollapseAll(Expansions(a + [c]))
  {
    var o := Options(c)[0];
    assert Options(c) == [o] && Collapsible(o);
    ExpansionsSnoc(a, c);
    ExpansionsSnoc(a + [c], c);
    ExtendTwice(Expansions(a), o);
  }

  /** Doubling one unambiguous character changes no expansion after collapsing. */
  lemma {:induction false} DoubledSameCollapse(a: string, c: char, b: string)
    requires c != '1' && Collapsible(c)
    ensures CollapseAll(Expansions(a + [c] + [c] + b)) == CollapseAll(Expansions(a + [c] + b))
    decreases |b|
  {
    if b == "" {
      assert a + [c] + [c] + b == a + [c] + [c] && a + [c] + b == a + [c];
      DoubledAtEnd(a, c);
    } else {
      var front, d := b[..|b| - 1], b[|b| - 1];
      var doubled, plain := a + [c] + [c] + front, a + [c] + front;
      assert a + [c] + [c] + b == doubled + [d] && a + [c] + b == plain + [d];
      ExpansionsSnoc(doubled, d);
      ExpansionsSnoc(plain, d);
      DoubledSameCollapse(a, c, front);
      ExtendSameCollapse(Expansions(doubled), Expansions(plain), Options(d));
    }
  }

  lemma SameVariants(s: string, t: string)
    requires CollapseAll(Expansions(s)) == CollapseAll(Expansions(t))
    ensures Variants(s) == Variants(t)
  {
    var x, y := Expansions(s), Expansions(t);
    assert |x| == |CollapseAll(x)| == |y|;
    assert CollapseAll(Truncate(x)) == Truncate(CollapseAll(x)) == CollapseAll(Truncate(y));
  }

  lemma StripSingle(c: char)
    ensures StripUnderscores([c]) == if c == '_' then "" else [c]
  {
    assert [c][..0] == "";
  }

  lemma UnderscoreStripped(a: string, b: string)
    ensures StripUnderscores(a + "_" + b) == StripUnderscores(a + b)
  {
    StripConcat(a + "_", b);
    StripConcat(a, "_");
    StripConcat(a, b);
    StripSingle('_');
  }

  lemma StripDoubled(a: string, c: char, b: string)
    requires c != '_'
    ensures StripUnderscores(a + [c] + b) == StripUnderscores(a) + [c] + StripUnderscores(b)
    ensures StripUnderscores(a + [c] + [c] + b) == StripUnderscores(a) + [c] + [c] + StripUnderscores(b)
  {
    StripSingle(c);
    StripConcat(a, [c]);
    StripConcat(a + [c], b);
    StripConcat(a + [c], [c]);
    StripConcat(a + [c] + [c], b);
  }

  lemma DoubledSameVariants(a: string, c: char, b: string)
    requires c != '1' && Collapsible(c)
    ensures Variants(StripUnderscores(a + [c] + [c] + b)) == Variants(StripUnderscores(a + [c] + b))
  {
    if c == '_' {
      UnderscoreStripped(a + [c], b);
      assert a + [c] + "_" + b == a + [c] + [c] + b;
    } else {
      var sa, sb := StripUnderscores(a), StripUnderscores(b);
      StripDoubled(a, c, b);
      DoubledSameCollapse(sa, c, sb);
      SameVariants(sa + [c] + [c] + sb, sa + [c] + sb);
    }
  }

  lemma EvasionStep(text: string, e: Evasion)
    requires CanEvade(text, e)
    ensures Variants(StripUnderscores(Evade(text, e))) == Variants(StripUnderscores(text))
  {
    match e
    case InsertUnderscore(at) =>
      assert text == text[..at] + text[at..];
      UnderscoreStripped(text[..at], text[at..]);
    case DoubleCharacter(at) =>
      var a, c, b := text[..at], text[at], text[at + 1..];
      assert text == a + [c] + b && Evade(text, e) == a + [c] + [c] + b;
      DoubledSameVariants(a, c, b);
  }

  /** Any chain of inserted underscores and doubled characters other than '1'
      leaves the final variant list of a lower-case text as it was, truncated or not. */
  lemma {:induction false} TextInvariance(text: string, path: seq<Evasion>)
    requires CanEvadeAll(text, path)
    ensures Variants(StripUnderscores(EvadeAll(text, path))) == Variants(StripUnderscores(text))
    decreases |path|
  {
    if path != [] {
      EvasionStep(text, path[0]);
      TextInvariance(Evade(text, path[0]), path[1..]);
    }
  }

  function Mapped(one: char -> char, s: string): (r: string)
    ensures |r| == |s| && forall i :: 0 <= i < |s| ==> r[i] == one(s[i])
  {
    seq(|s|, i requires 0 <= i < |s| => one(s[i]))
  }

  ghost predicate AllPlain(plain: char -> bool, s: string) { forall i :: 0 <= i < |s| ==> plain(s[i]) }

  /** `lower` works on texts of plain characters one by one. Of all Unicode only
      U+0130 (which becomes two characters) and U+03A3 (which depends on its
      neighbours) have to be left out. */
  ghost predicate LowersByCharacter(lower: string -> string, one: char -> char, plain: char -> bool) {
    (forall s :: AllPlain(plain, s) ==> lower(s) == Mapped(one, s)) &&
    plain('_') && one('_') == '_' &&
    forall c :: plain(c) ==>
      plain(one(c)) && one(one(c)) == one(c) && (c != '1' ==> one(c) != '1') && (Collapsible(c) ==> Collapsible(one(c)))
  }

  /** ASCII is a case of it. */
  lemma AsciiLowersByCharacter(lower: string -> string)
    requires LowersAscii(lower)
    ensures LowersByCharacter(lower, AsciiLower, c => c as int < 128)
  {
    forall s | AllPlain(c => c as int < 128, s) ensures lower(s) == Mapped(AsciiLower, s) {
      assert IsAscii(s);
      assert AsciiLowered(s) == Mapped(AsciiLower, s);
    }
  }

  lemma MappedConcat(one: char -> char, plain: char -> bool, s: string, t: string)
    ensures Mapped(one, s + t) == Mapped(one, s) + Mapped(one, t)
    ensures AllPlain(plain, s + t) <==> AllPlain(plain, s) && AllPlain(plain, t)
  {
    assert forall i :: 0 <= i < |t| ==> (s + t)[|s| + i] == t[i];
    assert forall i :: 0 <= i < |s| ==> (s + t)[i] == s[i];
  }

  /** A text with one part put in place of another, character by character. */
  lemma MappedParts(one: char -> char, plain: char -> bool, a: string, m: string, b: string)
    ensures Mapped(one, a + m + b) == Mapped(one, a) + Mapped(one, m) + Mapped(one, b)
    ensures AllPlain(plain, a + m + b) <==> AllPlain(plain, a) && AllPlain(plain, m) && AllPlain(plain, b)
  {
    MappedConcat(one, plain, a + m, b);
    MappedConcat(one, plain, a, m);
  }

  lemma InsertedMapped(lower: string -> string, one: char -> char, plain: char -> bool, tag: string, at: nat)
    requires LowersByCharacter(lower, one, plain) && AllPlain(plain, tag) && at <= |tag|
    ensures var evaded := Evade(tag, InsertUnderscore(at));
            AllPlain(plain, evaded) && Mapped(one, evaded) == Evade(Mapped(one, tag), InsertUnderscore(at))
  {
    var a, b, mapped := tag[..at], tag[at..], Mapped(one, tag);
    assert Mapped(one, a) == mapped[..at] && Mapped(one, b) == mapped[at..] && Mapped(one, "_") == "_";
    MappedParts(one, plain, a, "_", b);
  }

  lemma DoubledMapped(one: char -> char, plain: char -> bool, tag: string, at: nat)
    requires AllPlain(plain, tag) && at < |tag|
    ensures var doubled := tag[..at] + [tag[at], tag[at]] + tag[at + 1..]; var mapped := Mapped(one, tag);
            AllPlain(plain, doubled) &&
            Mapped(one, doubled) == mapped[..at] + [mapped[at], mapped[at]] + mapped[at + 1..]
  {
    var a, c, b, mapped := tag[..at], tag[at], tag[at + 1..], Mapped(one, tag);
    assert plain(c) && Mapped(one, [c, c]) == [one(c), one(c)];
    assert Mapped(one, a) == mapped[..at] && Mapped(one, b) == mapped[at + 1..];
    MappedParts(one, plain, a, [c, c], b);
  }

  lemma EvadeOnceMapped(lower: string -> string, one: char -> char, plain: char -> bool, tag: string, e: Evasion)
    requires LowersByCharacter(lower, one, plain) && AllPlain(plain, tag) && CanEvade(tag, e)
    ensures AllPlain(plain, Evade(tag, e)) && CanEvade(Mapped(one, tag), e)
    ensures Mapped(one, Evade(tag, e)) == Evade(Mapped(one, tag), e)
  {
    match e
    case InsertUnderscore(at) => InsertedMapped(lower, one, plain, tag, at);
    case DoubleCharacter(at) =>
      assert plain(tag[at]);
      DoubledMapped(one, plain, tag, at);
  }

  lemma {:induction false} EvadeMapped(lower: string -> string, one: char -> char, plain: char -> bool,
                                       tag: string, path: seq<Evasion>)
    requires LowersByCharacter(lower, one, plain) && AllPlain(plain, tag) && CanEvadeAll(tag, path)
    ensures AllPlain(plain, EvadeAll(tag, path)) && CanEvadeAll(Mapped(one, tag), path)
    ensures Mapped(one, EvadeAll(tag, path)) == EvadeAll(Mapped(one, tag), path)
    decreases |path|
  {
    if path != [] {
      EvadeOnceMapped(lower, one, plain, tag, path[0]);
      EvadeMapped(lower, one, plain, Evade(tag, path[0]), path[1..]);
    }
  }

  /** Lower-casing does not get in the way. */
  lemma EvasionInvariance(lower: string -> string, one: char -> char, plain: char -> bool,
                          tag: string, path: seq<Evasion>)
    requires LowersByCharacter(lower, one, plain) && AllPlain(plain, tag) && CanEvadeAll(tag, path)
    ensures AllPlain(plain, EvadeAll(tag, path))
    ensures Variants(StripUnderscores(lower(EvadeAll(tag, path)))) == Variants(StripUnderscores(lower(tag)))
  {
    EvadeMapped(lower, one, plain, tag, path);
    TextInvariance(Mapped(one, tag), path);
  }

  /** Collapsing leaves every line terminator and every character above U+FFFF in place. */
  lemma {:induction false} CollapseKeepsCount(s: string, c: char)
    requires !Collapsible(c)
    ensures multiset(Collapse(s))[c] == multiset(s)[c]
    decreases |s|
  {
    if s != "" {
      var block, rest := s[..Block(s)], s[Block(s)..];
      assert s == block + rest;
      CollapseKeepsCount(rest, c);
      CountConcat(block, rest, c);
      CountConcat([s[0]], Collapse(rest), c);
      BlockCount(s, c);
    }
  }

  lemma CountConcat(s: string, t: string, c: char)
    ensures multiset(s + t)[c] == multiset(s)[c] + multiset(t)[c]
  {
  }

  lemma BlockCount(s: string, c: char)
    requires s != "" && !Collapsible(c)
    ensures multiset(s[..Block(s)])[c] == multiset([s[0]])[c]
  {
    var front := s[..Block(s)];
    if s[0] == c {
      assert front == [c];
    } else {
      assert forall i :: 0 <= i < |front| ==> front[i] != c;
      assert c !in front;
    }
  }

  lemma OptionKeepsCharacter(x: char, y: char, c: char)
    requires !Collapsible(c) && y in Options(x)
    ensures x == c <==> y == c
  {
  }

  lemma {:induction false} SameCount(s: string, w: string, c: char)
    requires |s| == |w| && forall i :: 0 <= i < |s| ==> (s[i] == c <==> w[i] == c)
    ensures multiset(w)[c] == multiset(s)[c]
  {
    if s == "" {
      assert w == s;
    } else {
      var sFront, x, wFront, y := s[..|s| - 1], s[|s| - 1], w[..|w| - 1], w[|w| - 1];
      SameCount(sFront, wFront, c);
      CountConcat(sFront, [x], c);
      CountConcat(wFront, [y], c);
      assert s == sFront + [x] && w == wFront + [y];
    }
  }

  lemma ExpansionKeepsCount(s: string, w: string, c: char)
    requires !Collapsible(c) && IsExpansion(s, w)
    ensures multiset(w)[c] == multiset(s)[c]
  {
    forall i | 0 <= i < |s| ensures s[i] == c <==> w[i] == c {
      OptionKeepsCharacter(s[i], w[i], c);
    }
    SameCount(s, w, c);
  }

  lemma VariantCount(s: string, v: string, c: char)
    requires !Collapsible(c) && v in Variants(s)
    ensures multiset(v)[c] == multiset(s)[c]
  {
    var xs := Truncate(Expansions(s));
    DistinctMembers(CollapseAll(xs), v);
    var i :| 0 <= i < |xs| && CollapseAll(xs)[i] == v;
    assert xs[i] in Expansions(s);
    ExpansionsExact(s, xs[i]);
    ExpansionKeepsCount(s, xs[i], c);
    CollapseKeepsCount(xs[i], c);
  }

  lemma SomeVariant(s: string) returns (v: string)
    ensures v in Variants(s)
  {
    ExpansionsCount(s);
    Pow2Monotonic(0, Ones(s));
    var xs := CollapseAll(Truncate(Expansions(s)));
    v := xs[0];
    DistinctMembers(xs, v);
  }

  lemma OneMoreCounted(a: string, c: char, b: string)
    ensures multiset(a + [c] + [c] + b)[c] == multiset(a + [c] + b)[c] + 1
  {
    CountConcat(a + [c] + [c], b, c);
    CountConcat(a + [c], b, c);
    CountConcat(a + [c], [c], c);
  }

  /** Of the characters other than '1', doubling changes nothing for exactly
      those that a regular expression's `.` matches as one unit. */
  lemma DoublingExactly(a: string, c: char, b: string)
    requires c != '1'
    ensures Variants(StripUnderscores(a + [c] + [c] + b)) == Variants(StripUnderscores(a + [c] + b)) <==> Collapsible(c)
  {
    if Collapsible(c) {
      DoubledSameVariants(a, c, b);
    } else {
      var sa, sb := StripUnderscores(a), StripUnderscores(b);
      StripDoubled(a, c, b);
      var v := SomeVariant(sa + [c] + sb);
      OneMoreCounted(sa, c, sb);
      VariantCount(sa + [c] + sb, v, c);
      if v in Variants(sa + [c] + [c] + sb) {
        VariantCount(sa + [c] + [c] + sb, v, c);
      }
    }
  }

  lemma MappedTwice(lower: string -> string, one: char -> char, plain: char -> bool, s: string)
    requires LowersByCharacter(lower, one, plain) && AllPlain(plain, s)
    ensures lower(lower(s)) == lower(s)
  {
    var l := Mapped(one, s);
    forall i | 0 <= i < |l| ensures plain(l[i]) && one(l[i]) == l[i] {
      assert plain(s[i]);
    }
    assert Mapped(one, l) == l;
  }

  /** Whether a name is still blocked after such evasions: exactly when it is not
      allow-listed and it is bad as it now stands or had a bad variant before. */
  lemma EvasionBlockedExactly(lower: string -> string, one: char -> char, plain: char -> bool, allow: set<string>,
                              bad: string -> bool, tag: string, path: seq<Evasion>)
    requires LowersByCharacter(lower, one, plain) && AllPlain(plain, tag) && CanEvadeAll(tag, path)
    ensures var evaded := EvadeAll(tag, path);
            BlockedName(lower, allow, bad, evaded) <==>
            lower(evaded) !in allow &&
            (bad(lower(evaded)) || exists v :: v in Variants(StripUnderscores(lower(tag))) && bad(v))
  {
    EvasionInvariance(lower, one, plain, tag, path);
    MappedTwice(lower, one, plain, EvadeAll(tag, path));
  }

  ghost predicate NoRuns(w: string) {
    forall i :: 0 <= i < |w| - 1 && Collapsible(w[i]) ==> w[i] != w[i + 1]
  }

  lemma {:induction false} CollapseNoRuns(s: string)
    ensures NoRuns(Collapse(s))
  {
    if s != "" {
      var front, c := s[..|s| - 1], s[|s| - 1];
      assert s == front + [c];
      CollapseNoRuns(front);
      CollapseSnoc(front, c);
    }
  }

  lemma VariantNoRuns(s: string, v: string)
    requires v in Variants(s)
    ensures NoRuns(v)
  {
    var xs := Truncate(Expansions(s));
    DistinctMembers(CollapseAll(xs), v);
    var i :| 0 <= i < |xs| && CollapseAll(xs)[i] == v;
    CollapseNoRuns(xs[i]);
  }

  /** Content that is bad only for a run of equal letters is looked for in the
      text as it stands and nowhere else. */
  lemma RunsOnlyAsTheyStand(lower: string -> string, allow: set<string>, bad: string -> bool, tag: string)
    requires forall s :: bad(s) ==> !NoRuns(s)
    ensures BlockedName(lower, allow, bad, tag) <==> lower(tag) !in allow && bad(lower(tag))
  {
    forall v | v in Variants(StripUnderscores(lower(lower(tag)))) ensures !bad(v) {
      VariantNoRuns(StripUnderscores(lower(lower(tag))), v);
    }
  }

  /** So an underscore can unblock a name. */
  lemma UnderscoreUnblocks(lower: string -> string, bad: string -> bool)
    requires LowersAscii(lower) && forall s :: bad(s) <==> s == "ass"
    ensures BlockedName(lower, {}, bad, "ass") && !BlockedName(lower, {}, bad, "a_ss")
    ensures CanEvade("ass", InsertUnderscore(1)) && Evade("ass", InsertUnderscore(1)) == "a_ss"
  {
    AssHasRun();
    RunsOnlyAsTheyStand(lower, {}, bad, "ass");
    RunsOnlyAsTheyStand(lower, {}, bad, "a_ss");
    AssLowered(lower);
  }

  lemma AssHasRun()
    ensures !NoRuns("ass")
  {
    assert "ass"[1] == "ass"[2] && Collapsible("ass"[1]);
  }

  lemma AssLowered(lower: string -> string)
    requires LowersAscii(lower)
    ensures lower("ass") == "ass" && lower("a_ss") == "a_ss"
  {
    assert AsciiLowered("ass") == "ass" && AsciiLowered("a_ss") == "a_ss";
  }

  lemma CollapseIl()
    ensures Collapse("il") == "il"
  {
    assert "il"[1..] == "l" && "l"[1..] == "";
    assert Run("l"[1..], 'l') == 0 && Run("l", 'l') == 1;
    assert Run("l", 'i') == 0 && Run("il", 'i') == 1;
    assert Collapse("l") == "l";
    assert Collapse("il") == ['i'] + Collapse("il"[1..]);
  }

  lemma TwoOnes()
    ensures "il" in Variants("11")
  {
    assert Ones("1"[..0]) == 0 && Ones("1") == 1 && "11"[..1] == "1" && Ones("11") == 2;
    NothingTruncated("11");
    assert IsExpansion("11", "il");
    ExpansionsExact("11", "il");
    var xs := Expansions("11");
    var i :| 0 <= i < |xs| && xs[i] == "il";
    CollapseIl();
    assert CollapseAll(xs)[i] == "il";
    DistinctMembers(CollapseAll(xs), "il");
  }

  lemma {:induction false} CollapseShrinks(s: string)
    ensures |Collapse(s)| <= |s|
    decreases |s|
  {
    if s != "" {
      CollapseShrinks(s[Block(s)..]);
    }
  }

  /** Doubling a '1' is not such an evasion: "11" can read "il", "1" cannot. */
  lemma DoublingOneMatters()
    ensures "il" in Variants("11") && "il" !in Variants("1")
  {
    TwoOnes();
    var ys := Truncate(Expansions("1"));
    DistinctMembers(CollapseAll(ys), "il");
    forall j | 0 <= j < |ys| ensures |CollapseAll(ys)[j]| < 2 {
      assert ys[j] in Expansions("1");
      ExpansionsExact("1", ys[j]);
      CollapseShrinks(ys[j]);
    }
  }
}
