/** Rewrites of probe expressions that keep their meaning, and expressions that do not depend on the iterator. */
module ProbeLaws {
  import opened Wrappers
  import opened ProbeExpr
  import opened ProbeSemantics

  // ---------- Rewrites ----------

  lemma {:induction false} FilterTwice<I>(ev: Evaluator<I>, items: seq<I>, p: Condition, q: Condition)
    ensures
      var once, first := EvFilter(ev, items, Conjunction(p, q)), EvFilter(ev, items, p);
      && (once.Ok? <==> first.Ok? && EvFilter(ev, first.value, q).Ok?)
      && (once.Ok? ==> once == EvFilter(ev, first.value, q))
  {
    if items != [] {
      FilterTwice(ev, items[1..], p, q);
      var first := EvFilter(ev, items, p);
      if first.Ok? && EvCondition(ev, Some(items[0]), p).value {
        assert first.value[0] == items[0] && first.value[1..] == EvFilter(ev, items[1..], p).value;
      }
    }
  }

  /** Two filters succeed exactly when one filter by the conjunction does, with the same items. */
  lemma FilterFilter<I>(ev: Evaluator<I>, it: Option<I>, c: CollectionSource, p: Condition, q: Condition)
    ensures
      var two, one := EvCollection(ev, it, Filter(Filter(c, p), q)), EvCollection(ev, it, Filter(c, Conjunction(p, q)));
      (two.Ok? <==> one.Ok?) && (one.Ok? ==> one == two)
  {
    var items := EvCollection(ev, it, c);
    if items.Ok? {
      FilterTwice(ev, items.value, p, q);
    }
    assert EvCollection(ev, it, Filter(c, p)) == if items.Ok? then EvFilter(ev, items.value, p) else items;
  }

  lemma {:induction false} NotAnyItems<I>(ev: Evaluator<I>, items: seq<I>, p: Condition)
    ensures
      EvAll(ev, items, Negation(p)) ==
      match EvAny(ev, items, p)
      case Ok(b) => Ok(!b)
      case Err(e) => Err(e)
  {
    if items != [] {
      NotAnyItems(ev, items[1..], p);
    }
  }

  /** "Not any" is "all not", with the same errors. */
  lemma NotAny<I>(ev: Evaluator<I>, it: Option<I>, r: Reference, p: Condition)
    ensures EvCondition(ev, it, Negation(Match(Any, r, p))) == EvCondition(ev, it, Match(All, r, Negation(p)))
  {
    var items := EvItems(ev, it, r);
    if items.Ok? {
      NotAnyItems(ev, items.value, p);
      assert EvCondition(ev, it, Match(Any, r, p)) == EvAny(ev, items.value, p);
    } else {
      assert EvCondition(ev, it, Match(Any, r, p)).Err?;
    }
  }

  lemma Connects<I>(ev: Evaluator<I>, it: Option<I>, a: Condition, b: Condition)
    ensures EvCondition(ev, it, Conjunction(a, b)) ==
            if EvCondition(ev, it, a) == Ok(true) then EvCondition(ev, it, b) else EvCondition(ev, it, a)
    ensures EvCondition(ev, it, Disjunction(a, b)) ==
            if EvCondition(ev, it, a) == Ok(false) then EvCondition(ev, it, b) else EvCondition(ev, it, a)
  {
  }

  lemma Negates<I>(ev: Evaluator<I>, it: Option<I>, a: Condition)
    ensures
      EvCondition(ev, it, Negation(a)) ==
      match EvCondition(ev, it, a)
      case Ok(b) => Ok(!b)
      case Err(e) => Err(e)
  {
  }

  /** De Morgan, with the same errors: both sides evaluate the same operands. */
  lemma DeMorgan<I>(ev: Evaluator<I>, it: Option<I>, a: Condition, b: Condition)
    ensures
      EvCondition(ev, it, Negation(Conjunction(a, b))) == EvCondition(ev, it, Disjunction(Negation(a), Negation(b)))
    ensures
      EvCondition(ev, it, Negation(Disjunction(a, b))) == EvCondition(ev, it, Conjunction(Negation(a), Negation(b)))
  {
    hide EvCondition;
    Connects(ev, it, a, b);
    Connects(ev, it, Negation(a), Negation(b));
    Negates(ev, it, a);
    Negates(ev, it, b);
    Negates(ev, it, Conjunction(a, b));
    Negates(ev, it, Disjunction(a, b));
  }

  /** A filter that succeeds decides any and all: something was kept, or nothing was removed. */
  lemma {:induction false} FilterDecides<I>(ev: Evaluator<I>, items: seq<I>, p: Condition)
    requires EvFilter(ev, items, p).Ok?
    ensures var kept := EvFilter(ev, items, p).value;
            && |kept| <= |items|
            && EvAny(ev, items, p) == Ok(kept != [])
            && EvAll(ev, items, p) == Ok(|kept| == |items|)
  {
    if items != [] {
      FilterDecides(ev, items[1..], p);
    }
  }

  // ---------- Expressions that do not mention the iterator of their surroundings ----------

  predicate ClosedValue(value: Value) {
    match value
    case BoolValue(c) => ClosedCondition(c)
    case StringValue(s) => ClosedString(s)
    case NumberValue(n) => ClosedNumber(n)
  }

  predicate ClosedNumber(number: NumberSource) {
    match number
    case Number(_) => true
    case CollectionSize(c) => ClosedCollection(c)
    case NumberRef(r) => ClosedReference(r)
  }

  predicate ClosedString(str: StringSource) {
    match str
    case Substring(base, start, end) => ClosedString(base) && ClosedNumber(start) && ClosedNumber(end)
    case StringRef(r) => ClosedReference(r)
    case _ => true
  }

  predicate ClosedReference(reference: Reference) {
    match reference
    case IteratorVariable => false
    case Base(_) => true
    case Index(collection, dimension) => ClosedCollection(collection) && ClosedValue(dimension)
    case Nested(outer, member) => ClosedReference(outer) && ClosedValue(member)
  }

  /** The condition of a filter has an iterator of its own. */
  predicate ClosedCollection(collection: CollectionSource) {
    match collection
    case RefSource(r) => ClosedReference(r)
    case Filter(source, _) => ClosedCollection(source)
  }

  predicate ClosedCondition(c: Condition) {
    match c
    case Always => true
    case Never => true
    case Disjunction(a, b) => ClosedCondition(a) && ClosedCondition(b)
    case Conjunction(a, b) => ClosedCondition(a) && ClosedCondition(b)
    case Negation(a) => ClosedCondition(a)
    case StringCompare(_, haystack, _) => ClosedString(haystack)
    case Compare(a, _, b) => ClosedValue(a) && ClosedValue(b)
    case Match(_, over, _) => ClosedReference(over)
    case Instanceof(r, _) => ClosedReference(r)
    case IsDefined(r) => ClosedReference(r)
    case IsEmpty(r) => ClosedReference(r)
  }

  lemma {:induction false} ClosedValueIgnoresIt<I>(ev: Evaluator<I>, x: Option<I>, y: Option<I>, value: Value)
    requires ClosedValue(value)
    ensures EvValue(ev, x, value) == EvValue(ev, y, value) && EvImm(ev, x, value) == EvImm(ev, y, value)
    decreases value
  {
    match value
    case BoolValue(c) => ClosedConditionIgnoresIt(ev, x, y, c);
    case StringValue(s) => ClosedStringIgnoresIt(ev, x, y, s);
    case NumberValue(n) => ClosedNumberIgnoresIt(ev, x, y, n);
  }

  lemma {:induction false} ClosedNumberIgnoresIt<I>(ev: Evaluator<I>, x: Option<I>, y: Option<I>, number: NumberSource)
    requires ClosedNumber(number)
    ensures EvNumber(ev, x, number) == EvNumber(ev, y, number) && EvIndex(ev, x, number) == EvIndex(ev, y, number)
    decreases number
  {
    match number
    case Number(_) =>
    case CollectionSize(c) =>
      ClosedCollectionIgnoresIt(ev, x, y, c);
      if c.RefSource? { ClosedReferenceIgnoresIt(ev, x, y, c.reference); }
    case NumberRef(r) => ClosedReferenceIgnoresIt(ev, x, y, r);
  }

  lemma {:induction false} ClosedStringIgnoresIt<I>(ev: Evaluator<I>, x: Option<I>, y: Option<I>, str: StringSource)
    requires ClosedString(str)
    ensures EvString(ev, x, str) == EvString(ev, y, str) && EvText(ev, x, str) == EvText(ev, y, str)
    decreases str
  {
    match str
    case Text(_) =>
    case NullText =>
    case Substring(base, start, end) =>
      ClosedStringIgnoresIt(ev, x, y, base);
      ClosedNumberIgnoresIt(ev, x, y, start);
      ClosedNumberIgnoresIt(ev, x, y, end);
    case StringRef(r) => ClosedReferenceIgnoresIt(ev, x, y, r);
  }

  lemma {:induction false} ClosedReferenceIgnoresIt<I>(ev: Evaluator<I>, x: Option<I>, y: Option<I>, reference: Reference)
    requires ClosedReference(reference)
    ensures EvReference(ev, x, reference) == EvReference(ev, y, reference)
    ensures EvUsed(ev, x, reference) == EvUsed(ev, y, reference) && EvItems(ev, x, reference) == EvItems(ev, y, reference)
    decreases reference
  {
    match reference
    case Base(_) =>
    case Index(collection, dimension) =>
      ClosedValueIgnoresIt(ev, x, y, dimension);
      ClosedCollectionIgnoresIt(ev, x, y, collection);
      if collection.RefSource? { ClosedReferenceIgnoresIt(ev, x, y, collection.reference); }
    case Nested(outer, member) =>
      ClosedValueIgnoresIt(ev, x, y, member);
      ClosedReferenceIgnoresIt(ev, x, y, outer);
  }

  lemma {:induction false} ClosedCollectionIgnoresIt<I>(ev: Evaluator<I>, x: Option<I>, y: Option<I>, collection: CollectionSource)
    requires ClosedCollection(collection)
    ensures EvCollection(ev, x, collection) == EvCollection(ev, y, collection)
    decreases collection
  {
    match collection
    case RefSource(r) => ClosedReferenceIgnoresIt(ev, x, y, r);
    case Filter(source, _) => ClosedCollectionIgnoresIt(ev, x, y, source);
  }

  lemma {:induction false} ClosedConditionIgnoresIt<I>(ev: Evaluator<I>, x: Option<I>, y: Option<I>, c: Condition)
    requires ClosedCondition(c)
    ensures EvCondition(ev, x, c) == EvCondition(ev, y, c)
    decreases c
  {
    match c
    case Always =>
    case Never =>
    case Disjunction(a, b) =>
      ClosedConditionIgnoresIt(ev, x, y, a);
      ClosedConditionIgnoresIt(ev, x, y, b);
    case Conjunction(a, b) =>
      ClosedConditionIgnoresIt(ev, x, y, a);
      ClosedConditionIgnoresIt(ev, x, y, b);
    case Negation(a) => ClosedConditionIgnoresIt(ev, x, y, a);
    case StringCompare(_, haystack, _) => ClosedStringIgnoresIt(ev, x, y, haystack);
    case Compare(a, _, b) =>
      ClosedValueIgnoresIt(ev, x, y, a);
      ClosedValueIgnoresIt(ev, x, y, b);
    case Match(_, over, _) => ClosedReferenceIgnoresIt(ev, x, y, over);
    case Instanceof(r, _) => ClosedReferenceIgnoresIt(ev, x, y, r);
    case IsDefined(r) => ClosedReferenceIgnoresIt(ev, x, y, r);
    case IsEmpty(r) => ClosedReferenceIgnoresIt(ev, x, y, r);
  }
}
