/**
 * What probe expressions mean for whoever writes them, said without the
 * evaluation rules: which item an index into a filter selects, which item
 * decides a search, where a path leads, and what the comparisons compare.
 */
module ProbeFacts {
  import opened Arith
  import opened Wrappers
  import opened ProbeExpr
  import opened ProbeSemantics
  import opened ProbeLaws

  // ---------- Filters ----------

  ghost predicate HoldsOn<I>(ev: Evaluator<I>, p: Condition, v: I) { EvCondition(ev, Some(v), p) == Ok(true) }

  /** The number of items the condition holds on. */
  ghost function Holding<I>(ev: Evaluator<I>, p: Condition, items: seq<I>): nat {
    if items == [] then 0
    else (if HoldsOn(ev, p, items[0]) then 1 else 0) + Holding(ev, p, items[1..])
  }

  /** A filter succeeds exactly when its condition does on every item. */
  lemma {:induction false} FilterSucceedsIff<I>(ev: Evaluator<I>, items: seq<I>, p: Condition)
    ensures EvFilter(ev, items, p).Ok? <==> forall v | v in items :: EvCondition(ev, Some(v), p).Ok?
  {
    hide EvCondition;
    if items != [] {
      FilterSucceedsIff(ev, items[1..], p);
      assert items == [items[0]] + items[1..];
    }
  }

  /** A filter that fails does so as the first failing item does. */
  lemma {:induction false} FilterFailsFirst<I>(ev: Evaluator<I>, items: seq<I>, p: Condition, i: nat)
    requires i < |items| && EvCondition(ev, Some(items[i]), p).Err?
    requires forall j | 0 <= j < i :: EvCondition(ev, Some(items[j]), p).Ok?
    ensures EvFilter(ev, items, p) == Err(EvCondition(ev, Some(items[i]), p).error)
  {
    hide EvCondition;
    if i > 0 {
      FilterFailsFirst(ev, items[1..], p, i - 1);
    }
  }

  /** A filter keeps as many items as its condition holds on. */
  lemma {:induction false} FilterCounts<I>(ev: Evaluator<I>, items: seq<I>, p: Condition)
    requires EvFilter(ev, items, p).Ok?
    ensures |EvFilter(ev, items, p).value| == Holding(ev, p, items)
  {
    if items != [] {
      FilterCounts(ev, items[1..], p);
    }
  }

  /** Entry `k` of what a filter keeps is the item on which the condition holds for the time `k + 1`. */
  lemma {:induction false} FilterSelects<I>(ev: Evaluator<I>, items: seq<I>, p: Condition, k: nat) returns (i: nat)
    requires EvFilter(ev, items, p).Ok? && k < Holding(ev, p, items)
    ensures i < |items| && HoldsOn(ev, p, items[i]) && Holding(ev, p, items[..i]) == k
    ensures k < |EvFilter(ev, items, p).value| && EvFilter(ev, items, p).value[k] == items[i]
  {
    hide EvCondition;
    if HoldsOn(ev, p, items[0]) && k == 0 {
      i := 0;
    } else {
      i := FilterSelects(ev, items[1..], p, if HoldsOn(ev, p, items[0]) then k - 1 else k);
      i := i + 1;
      assert items[..i][1..] == items[1..][..i - 1];
    }
  }

  /**
   * An index into a filter selects the item on which the condition holds for
   * the time `at + 1`, and is unresolved, not an error, when there is none.
   */
  lemma {:induction false} FilterIndex<I>(
    ev: Evaluator<I>, it: Option<I>, c: CollectionSource, p: Condition, dimension: Value, items: seq<I>, at: nat)
    returns (i: nat)
    requires EvImm(ev, it, dimension).Ok? && ConvertIndex(ev, EvImm(ev, it, dimension).value) == Ok(at)
    requires EvCollection(ev, it, c) == Ok(items) && forall v | v in items :: EvCondition(ev, Some(v), p).Ok?
    ensures
      var f := EvReference(ev, it, Index(Filter(c, p), dimension));
      if at < Holding(ev, p, items)
      then i < |items| && f == Ok(Ok(items[i])) && HoldsOn(ev, p, items[i]) && Holding(ev, p, items[..i]) == at
      else
        && f.Ok? && f.value.Err? && f.value.error.IndexEvaluated? && f.value.error.at == at
        && |f.value.error.items| == Holding(ev, p, items)
  {
    hide EvCondition, EvImm;
    FilterSucceedsIff(ev, items, p);
    FilterCounts(ev, items, p);
    i := 0;
    if at < Holding(ev, p, items) {
      i := FilterSelects(ev, items, p, at);
    }
  }

  lemma {:induction false} AllHold<I>(ev: Evaluator<I>, items: seq<I>)
    ensures Holding(ev, Always, items) == |items|
  {
    if items != [] {
      AllHold(ev, items[1..]);
    }
  }

  /** An index into an unfiltered collection that can be enumerated is its item at that place. */
  lemma {:induction false} EnumeratedIndex<I>(ev: Evaluator<I>, it: Option<I>, r: Reference, items: seq<I>, at: nat)
    requires EvItems(ev, it, r) == Ok(items) && at < |items| && at <= USIZE_MAX
    ensures EvReference(ev, it, Index(Filter(RefSource(r), Always), NumberValue(Number(at as real)))) == Ok(Ok(items[at]))
  {
    var dimension := NumberValue(Number(at as real));
    assert EvNumber(ev, it, Number(at as real)) == Ok(Ok(Num(at as real)));
    AllHold(ev, items);
    var i := FilterIndex(ev, it, RefSource(r), Always, dimension, items, at);
    AllHold(ev, items[..i]);
  }

  /** The size of a filter is the number of items its condition holds on. */
  lemma {:induction false} FilterSize<I>(ev: Evaluator<I>, it: Option<I>, c: CollectionSource, p: Condition, items: seq<I>)
    requires EvCollection(ev, it, c) == Ok(items) && forall v | v in items :: EvCondition(ev, Some(v), p).Ok?
    ensures EvNumber(ev, it, CollectionSize(Filter(c, p))) == Ok(Ok(Num(Holding(ev, p, items) as real)))
  {
    FilterSucceedsIff(ev, items, p);
    FilterCounts(ev, items, p);
  }

  // ---------- Searches ----------

  lemma {:induction false} FirstItemDecides<I>(ev: Evaluator<I>, items: seq<I>, p: Condition, i: nat)
    requires i < |items| && EvCondition(ev, Some(items[i]), p) != Ok(false)
    requires forall j | 0 <= j < i :: EvCondition(ev, Some(items[j]), p) == Ok(false)
    ensures EvAny(ev, items, p) == EvCondition(ev, Some(items[i]), p)
  {
    hide EvCondition;
    if i > 0 {
      FirstItemDecides(ev, items[1..], p, i - 1);
    }
  }

  lemma {:induction false} NoItemDecides<I>(ev: Evaluator<I>, items: seq<I>, p: Condition)
    requires forall j | 0 <= j < |items| :: EvCondition(ev, Some(items[j]), p) == Ok(false)
    ensures EvAny(ev, items, p) == Ok(false)
  {
    hide EvCondition;
    if items != [] {
      NoItemDecides(ev, items[1..], p);
    }
  }

  lemma MatchesAny<I>(ev: Evaluator<I>, it: Option<I>, r: Reference, p: Condition, items: seq<I>)
    requires EvItems(ev, it, r) == Ok(items)
    ensures EvCondition(ev, it, Match(Any, r, p)) == EvAny(ev, items, p)
  {
  }

  /** "Any" is decided by the first item on which its condition is not false, and nothing after it matters. */
  lemma FirstDecides<I>(ev: Evaluator<I>, it: Option<I>, r: Reference, p: Condition, items: seq<I>, i: nat)
    requires EvItems(ev, it, r) == Ok(items) && i < |items| && EvCondition(ev, Some(items[i]), p) != Ok(false)
    requires forall j | 0 <= j < i :: EvCondition(ev, Some(items[j]), p) == Ok(false)
    ensures EvCondition(ev, it, Match(Any, r, p)) == EvCondition(ev, Some(items[i]), p)
  {
    FirstItemDecides(ev, items, p, i);
    MatchesAny(ev, it, r, p, items);
  }

  /** Without such an item nothing matches. */
  lemma NoneDecides<I>(ev: Evaluator<I>, it: Option<I>, r: Reference, p: Condition, items: seq<I>)
    requires EvItems(ev, it, r) == Ok(items)
    requires forall j | 0 <= j < |items| :: EvCondition(ev, Some(items[j]), p) == Ok(false)
    ensures EvCondition(ev, it, Match(Any, r, p)) == Ok(false)
  {
    NoItemDecides(ev, items, p);
    MatchesAny(ev, it, r, p, items);
  }

  // ---------- Connectives ----------

  /** A constant operand decides or drops out; what it decides, the other operand cannot spoil. */
  lemma Units<I>(ev: Evaluator<I>, it: Option<I>, a: Condition)
    ensures EvCondition(ev, it, Conjunction(Never, a)) == Ok(false)
    ensures EvCondition(ev, it, Disjunction(Always, a)) == Ok(true)
    ensures EvCondition(ev, it, Conjunction(Always, a)) == EvCondition(ev, it, Conjunction(a, Always)) == EvCondition(ev, it, a)
    ensures EvCondition(ev, it, Disjunction(Never, a)) == EvCondition(ev, it, Disjunction(a, Never)) == EvCondition(ev, it, a)
    ensures EvCondition(ev, it, Negation(Negation(a))) == EvCondition(ev, it, a)
    ensures EvCondition(ev, it, a).Ok? ==> EvCondition(ev, it, Conjunction(a, Negation(a))) == Ok(false)
  {
    assert EvCondition(ev, it, Always) == Ok(true) && EvCondition(ev, it, Never) == Ok(false);
    hide EvCondition;
    Connects(ev, it, Never, a);
    Connects(ev, it, Always, a);
    Connects(ev, it, a, Never);
    Connects(ev, it, a, Always);
    Connects(ev, it, a, Negation(a));
    Negates(ev, it, a);
    Negates(ev, it, Negation(a));
  }

  /** An error in what is evaluated first is the error of the whole, whatever comes after it. */
  lemma FirstErrorWins<I>(ev: Evaluator<I>, it: Option<I>, first: Value, e: EvErr<I>)
    requires EvImm(ev, it, first) == Err(e)
    ensures forall c :: EvReference(ev, it, Index(c, first)) == Err(e)
    ensures forall r :: EvReference(ev, it, Nested(r, first)) == Err(e)
    ensures forall comparison, b :: EvCondition(ev, it, Compare(first, comparison, b)) == Err(e)
  {
  }

  // ---------- Comparisons ----------

  /** When the callbacks compare two operands as numbers `x` and `y`, the six comparisons are those of `x` and `y`. */
  lemma ComparesAsNumbers<I>(ev: Evaluator<I>, it: Option<I>, a: Value, b: Value, x: real, y: real)
    requires EvImm(ev, it, a).Ok? && EvImm(ev, it, b).Ok?
    requires ev.equals(EvImm(ev, it, a).value, EvImm(ev, it, b).value) <==> x == y
    requires ev.greaterThan(EvImm(ev, it, a).value, EvImm(ev, it, b).value) <==> x > y
    requires ev.greaterOrEquals(EvImm(ev, it, a).value, EvImm(ev, it, b).value) <==> x >= y
    ensures EvCondition(ev, it, Compare(a, Equals, b)) == Ok(x == y)
    ensures EvCondition(ev, it, Compare(a, NotEquals, b)) == Ok(x != y)
    ensures EvCondition(ev, it, Compare(a, GreaterThan, b)) == Ok(x > y)
    ensures EvCondition(ev, it, Compare(a, GreaterOrEquals, b)) == Ok(x >= y)
    ensures EvCondition(ev, it, Compare(a, LowerThan, b)) == Ok(x < y)
    ensures EvCondition(ev, it, Compare(a, LowerOrEquals, b)) == Ok(x <= y)
  {
    hide EvImm;
  }

  /** The string comparisons, by what the haystack is made of; a pattern is matched by the library. */
  lemma ComparesStrings<I>(ev: Evaluator<I>, it: Option<I>, source: StringSource, haystack: string, needle: string)
    requires EvText(ev, it, source) == Ok(haystack)
    ensures EvCondition(ev, it, StringCompare(StartsWith, source, needle)) == Ok(exists tail :: haystack == needle + tail)
    ensures EvCondition(ev, it, StringCompare(EndsWith, source, needle)) == Ok(exists head :: haystack == head + needle)
    ensures EvCondition(ev, it, StringCompare(Contains, source, needle)) ==
            Ok(exists head, tail :: haystack == head + needle + tail)
    ensures forall b :: EvCondition(ev, it, StringCompare(Matches, source, needle)) == Ok(b) <==>
                        ev.regexMatch(needle, haystack) == Some(b)
  {
    hide EvText, CompareStrings;
    StringsCompare(ev, haystack, needle);
  }

  lemma StringsCompare<I>(ev: Evaluator<I>, haystack: string, needle: string)
    ensures CompareStrings(ev, StartsWith, haystack, needle) == Ok(exists tail :: haystack == needle + tail)
    ensures CompareStrings(ev, EndsWith, haystack, needle) == Ok(exists head :: haystack == head + needle)
    ensures CompareStrings(ev, Contains, haystack, needle) == Ok(exists head, tail :: haystack == head + needle + tail)
    ensures forall b :: CompareStrings(ev, Matches, haystack, needle) == Ok(b) <==> ev.regexMatch(needle, haystack) == Some(b)
  {
    PrefixIff(haystack, needle);
    SuffixIff(haystack, needle);
    InfixIff(haystack, needle);
    hide HasInfix;
  }

  lemma PrefixIff(s: string, part: string)
    ensures part <= s <==> exists tail :: s == part + tail
  {
    if part <= s {
      assert s == part + s[|part|..];
    }
  }

  lemma SuffixIff(s: string, part: string)
    ensures |part| <= |s| && s[|s| - |part|..] == part <==> exists head :: s == head + part
  {
    if |part| <= |s| && s[|s| - |part|..] == part {
      assert s == s[..|s| - |part|] + part;
    }
  }

  lemma InfixIff(s: string, part: string)
    ensures HasInfix(s, part) <==> exists head, tail :: s == head + part + tail
  {
    hide HasInfix;
    if i :| 0 <= i <= |s| && part <= s[i..] {
      assert s == s[..i] + part + s[i + |part|..];
    }
    if head, tail :| s == head + part + tail {
      assert s[|head|..] == part + tail;
    }
  }

  /** A collection is empty exactly when its size compares equal to zero, with the same errors. */
  lemma EmptyIffSizeZero<I>(ev: Evaluator<I>, it: Option<I>, r: Reference)
    requires forall x: real :: ev.equals(Num(x), Num(0.0)) <==> x == 0.0
    ensures
      EvCondition(ev, it, IsEmpty(r)) ==
      EvCondition(ev, it, Compare(NumberValue(CollectionSize(RefSource(r))), Equals, NumberValue(Number(0.0))))
  {
    var size, zero := NumberValue(CollectionSize(RefSource(r))), NumberValue(Number(0.0));
    assert EvValue(ev, it, zero) == Ok(Ok(Num(0.0)));
    assert EvValue(ev, it, size) == EvNumber(ev, it, CollectionSize(RefSource(r)));
  }

  // ---------- Text ----------

  /** A string is its first `k` characters and the rest. */
  lemma SubstringSplits<I>(ev: Evaluator<I>, it: Option<I>, base: StringSource, text: string, k: nat)
    requires EvText(ev, it, base) == Ok(text) && k <= |text| <= USIZE_MAX
    ensures
      var head := EvText(ev, it, Substring(base, Number(0.0), Number(k as real)));
      var tail := EvText(ev, it, Substring(base, Number(k as real), Number(|text| as real)));
      head.Ok? && tail.Ok? && |head.value| == k && text == head.value + tail.value
  {
    NumberIndex(ev, it, 0);
    NumberIndex(ev, it, k);
    NumberIndex(ev, it, |text|);
  }

  lemma NumberIndex<I>(ev: Evaluator<I>, it: Option<I>, k: nat)
    requires k <= USIZE_MAX
    ensures EvIndex(ev, it, Number(k as real)) == Ok(k)
  {
  }

  /** Which values are indices, and which. */
  lemma ConvertsIndex<I>(ev: Evaluator<I>, n: nat, s: string, v: I)
    ensures ConvertIndex(ev, Str(s)) == Ok(n) <==> ev.parseIndex(s) == Some(n)
    ensures ConvertIndex(ev, Ref(v)) == Ok(n) <==> ev.convertIndex(v) == Ok(n)
    ensures n <= USIZE_MAX ==> ConvertIndex(ev, Num(n as real)) == Ok(n)
    ensures ConvertIndex(ev, Null) == Ok(0) && forall b :: ConvertIndex(ev, Boolean(b)).Err?
  {
  }

  // ---------- Paths ----------

  /** One step along a path: into a member by name, or to an element by number. */
  datatype Hop = Member(name: string) | Element(at: real)

  function Along(r: Reference, hop: Hop): Reference {
    match hop
    case Member(name) => Nested(r, StringValue(Text(name)))
    case Element(at) => Index(RefSource(r), NumberValue(Number(at)))
  }

  function Path(r: Reference, hops: seq<Hop>): Reference
    decreases |hops|
  {
    if hops == [] then r else Path(Along(r, hops[0]), hops[1..])
  }

  function Fetched<I>(ev: Evaluator<I>, v: I, hop: Hop): Result<I, FetchError> {
    match hop
    case Member(name) => ev.fetchNested(v, Str(name))
    case Element(at) => ev.fetchIndex(v, Num(at))
  }

  /** Where the debugged program's own values lead. */
  function Walk<I>(ev: Evaluator<I>, v: I, hops: seq<Hop>): Option<I> {
    if hops == [] then Some(v)
    else
      match Fetched(ev, v, hops[0])
      case Ok(w) => Walk(ev, w, hops[1..])
      case Err(_) => None
  }

  lemma OneHop<I>(ev: Evaluator<I>, it: Option<I>, r: Reference, hop: Hop)
    ensures
      var from, to := EvReference(ev, it, r), EvReference(ev, it, Along(r, hop));
      if from.Ok? && from.value.Ok? then
        var fetched := Fetched(ev, from.value.value, hop);
        to.Ok? && (if fetched.Ok? then to.value == Ok(fetched.value) else to.value.Err?)
      else to == from
  {
    match hop
    case Member(name) =>
      assert EvString(ev, it, Text(name)) == Ok(Ok(Str(name)));
      assert EvImm(ev, it, StringValue(Text(name))) == Ok(Str(name));
    case Element(at) =>
      assert EvNumber(ev, it, Number(at)) == Ok(Ok(Num(at)));
      assert EvImm(ev, it, NumberValue(Number(at))) == Ok(Num(at));
  }

  /** A path of constants is resolved exactly when every step of the walk is, to the value the walk ends at. */
  lemma {:induction false} PathIsWalk<I>(ev: Evaluator<I>, it: Option<I>, r: Reference, hops: seq<Hop>)
    ensures
      var from, to := EvReference(ev, it, r), EvReference(ev, it, Path(r, hops));
      if from.Ok? && from.value.Ok? then
        var end := Walk(ev, from.value.value, hops);
        to.Ok? && (if end.Some? then to.value == Ok(end.value) else to.value.Err?)
      else to == from
    decreases |hops|
  {
    hide EvReference, Fetched, Along;
    if hops != [] {
      OneHop(ev, it, r, hops[0]);
      PathIsWalk(ev, it, Along(r, hops[0]), hops[1..]);
    }
  }

  /** A variable's path is defined exactly when the variable is and the walk from it ends. */
  lemma {:induction false} DefinedIffWalk<I>(ev: Evaluator<I>, it: Option<I>, name: string, hops: seq<Hop>)
    ensures
      var root := ev.fetchIdentifier(name);
      EvCondition(ev, it, IsDefined(Path(Base(name), hops))) == Ok(root.Ok? && Walk(ev, root.value, hops).Some?)
  {
    PathIsWalk(ev, it, Base(name), hops);
  }

  /** What a path leads to is what every use of it sees; a path that leads nowhere fails every use but `isDefined`. */
  lemma {:induction false} PathIsUsed<I>(ev: Evaluator<I>, it: Option<I>, name: string, hops: seq<Hop>, cls: string)
    ensures
      var r, root := Path(Base(name), hops), ev.fetchIdentifier(name);
      var end := if root.Ok? then Walk(ev, root.value, hops) else None;
      if end.Some? then
        && EvCondition(ev, it, Instanceof(r, cls)) == Ok(ev.instanceOf(end.value, cls))
        && EvNumber(ev, it, CollectionSize(RefSource(r))) == Ok(Ok(Num(ev.length(end.value) as real)))
        && EvImm(ev, it, StringValue(StringRef(r))) == EvImm(ev, it, NumberValue(NumberRef(r))) == Ok(Ref(end.value))
        && (forall items :: EvItems(ev, it, r) == Ok(items) <==> ev.tryEnumerate(end.value) == Ok(items))
      else
        && EvCondition(ev, it, Instanceof(r, cls)).Err? && EvCondition(ev, it, IsEmpty(r)).Err?
        && EvNumber(ev, it, CollectionSize(RefSource(r))).Err?
        && EvImm(ev, it, StringValue(StringRef(r))).Err? && EvImm(ev, it, NumberValue(NumberRef(r))).Err?
  {
    hide Walk, Path;
    PathIsWalk(ev, it, Base(name), hops);
    var r := Path(Base(name), hops);
    assert EvUsed(ev, it, r).Ok? <==> EvReference(ev, it, r).value.Ok?;
    assert EvString(ev, it, StringRef(r)).Ok? && EvNumber(ev, it, NumberRef(r)).Ok?;
  }
}
