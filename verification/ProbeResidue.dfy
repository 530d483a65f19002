/**
 * What an evaluation leaves in the iterator variable. A failure inside a
 * filter, any or all returns early and skips the restoring assignment, so the
 * item under evaluation stays behind; in every other case nothing changes.
 *
 * So three things hold of every residue: it is what was there before when the
 * evaluation succeeds, or when the expression has no filter, any or all; and
 * an iterator variable that is set stays set.
 */
module ProbeResidue {
  import opened Wrappers
  import opened ProbeExpr
  import opened ProbeSemantics

  // ---------- Expressions that iterate ----------

  predicate IteratesValue(value: Value) {
    match value
    case BoolValue(c) => IteratesCondition(c)
    case StringValue(s) => IteratesString(s)
    case NumberValue(n) => IteratesNumber(n)
  }

  predicate IteratesNumber(number: NumberSource) {
    match number
    case Number(_) => false
    case CollectionSize(c) => IteratesCollection(c)
    case NumberRef(r) => IteratesReference(r)
  }

  predicate IteratesString(str: StringSource) {
    match str
    case Substring(base, start, end) => IteratesString(base) || IteratesNumber(start) || IteratesNumber(end)
    case StringRef(r) => IteratesReference(r)
    case _ => false
  }

  predicate IteratesReference(reference: Reference) {
    match reference
    case Index(collection, dimension) => IteratesCollection(collection) || IteratesValue(dimension)
    case Nested(outer, member) => IteratesReference(outer) || IteratesValue(member)
    case _ => false
  }

  predicate IteratesCollection(collection: CollectionSource) {
    collection.Filter? || IteratesReference(collection.reference)
  }

  predicate IteratesCondition(c: Condition) {
    match c
    case Always => false
    case Never => false
    case Disjunction(a, b) => IteratesCondition(a) || IteratesCondition(b)
    case Conjunction(a, b) => IteratesCondition(a) || IteratesCondition(b)
    case Negation(a) => IteratesCondition(a)
    case StringCompare(_, haystack, _) => IteratesString(haystack)
    case Compare(a, _, b) => IteratesValue(a) || IteratesValue(b)
    case Match(_, _, _) => true
    case Instanceof(r, _) => IteratesReference(r)
    case IsDefined(r) => IteratesReference(r)
    case IsEmpty(r) => IteratesReference(r)
  }

  // ---------- What stays behind ----------

  ghost function AfterValue<I>(ev: Evaluator<I>, it: Option<I>, value: Value): (r: Option<I>)
    ensures EvValue(ev, it, value).Ok? || !IteratesValue(value) ==> r == it
    ensures it.Some? ==> r.Some?
    decreases value, 0, 0
  {
    match value
    case BoolValue(c) => AfterCondition(ev, it, c)
    case StringValue(s) => AfterString(ev, it, s)
    case NumberValue(n) => AfterNumber(ev, it, n)
  }

  ghost function AfterNumber<I>(ev: Evaluator<I>, it: Option<I>, number: NumberSource): (r: Option<I>)
    ensures EvNumber(ev, it, number).Ok? || !IteratesNumber(number) ==> r == it
    ensures it.Some? ==> r.Some?
    decreases number, 0, 0
  {
    match number
    case Number(_) => it
    case CollectionSize(RefSource(r)) =>
      assert IteratesCollection(number.collection) == IteratesReference(r);
      assert EvUsed(ev, it, r).Ok? ==> EvReference(ev, it, r).Ok?;
      AfterReference(ev, it, r)
    case CollectionSize(Filter(_, _)) => AfterCollection(ev, it, number.collection)
    case NumberRef(r) => AfterReference(ev, it, r)
  }

  ghost function AfterString<I>(ev: Evaluator<I>, it: Option<I>, str: StringSource): (r: Option<I>)
    ensures EvString(ev, it, str).Ok? || !IteratesString(str) ==> r == it
    ensures it.Some? ==> r.Some?
    decreases str, 0, 0
  {
    match str
    case Substring(base, start, end) =>
      if EvText(ev, it, base).Err? then AfterString(ev, it, base)
      else if EvIndex(ev, it, start).Err? then AfterNumber(ev, it, start)
      else
        assert EvIndex(ev, it, end).Ok? ==> EvNumber(ev, it, end).Ok?;
        AfterNumber(ev, it, end)
    case StringRef(r) => AfterReference(ev, it, r)
    case _ => it
  }

  ghost function AfterReference<I>(ev: Evaluator<I>, it: Option<I>, reference: Reference): (r: Option<I>)
    ensures EvReference(ev, it, reference).Ok? || !IteratesReference(reference) ==> r == it
    ensures it.Some? ==> r.Some?
    decreases reference, 0, 0
  {
    match reference
    case Index(collection, dimension) =>
      (match EvImm(ev, it, dimension)
       case Err(_) => AfterValue(ev, it, dimension)
       case Ok(index) =>
         match collection
         case Filter(_, _) => if ConvertIndex(ev, index).Err? then it else AfterCollection(ev, it, collection)
         case RefSource(base) =>
           assert IteratesCollection(collection) == IteratesReference(base);
           AfterReference(ev, it, base))
    case Nested(outer, member) =>
      if EvImm(ev, it, member).Err? then AfterValue(ev, it, member) else AfterReference(ev, it, outer)
    case _ => it
  }

  ghost function AfterCollection<I>(ev: Evaluator<I>, it: Option<I>, collection: CollectionSource): (r: Option<I>)
    ensures EvCollection(ev, it, collection).Ok? || !IteratesCollection(collection) ==> r == it
    ensures it.Some? ==> r.Some?
    decreases collection, 0, 0
  {
    match collection
    case RefSource(reference) =>
      assert EvItems(ev, it, reference).Ok? ==> EvUsed(ev, it, reference).Ok? && EvReference(ev, it, reference).Ok?;
      AfterReference(ev, it, reference)
    case Filter(source, c) =>
      match EvCollection(ev, it, source)
      case Err(_) => AfterCollection(ev, it, source)
      case Ok(items) => AfterFilter(ev, it, items, c)
  }

  ghost function AfterFilter<I>(ev: Evaluator<I>, it: Option<I>, items: seq<I>, c: Condition): (r: Option<I>)
    ensures if EvFilter(ev, items, c).Ok? then r == it else r.Some?
    ensures it.Some? ==> r.Some?
    decreases c, 1, |items|
  {
    if items == [] then it
    else if EvCondition(ev, Some(items[0]), c).Err? then AfterCondition(ev, Some(items[0]), c)
    else AfterFilter(ev, it, items[1..], c)
  }

  ghost function AfterMatch<I>(ev: Evaluator<I>, it: Option<I>, kind: CollectionMatch, items: seq<I>, c: Condition): (r: Option<I>)
    ensures if (if kind.All? then EvAll(ev, items, c) else EvAny(ev, items, c)).Ok? then r == it else r.Some?
    ensures it.Some? ==> r.Some?
    decreases c, 1, |items|
  {
    if items == [] then it
    else
      match EvCondition(ev, Some(items[0]), c)
      case Err(_) => AfterCondition(ev, Some(items[0]), c)
      case Ok(holds) => if holds == kind.All? then AfterMatch(ev, it, kind, items[1..], c) else it
  }

  ghost function AfterCondition<I>(ev: Evaluator<I>, it: Option<I>, c: Condition): (r: Option<I>)
    ensures EvCondition(ev, it, c).Ok? || !IteratesCondition(c) ==> r == it
    ensures it.Some? ==> r.Some?
    decreases c, 0, 0
  {
    match c
    case Always => it
    case Never => it
    case Disjunction(a, b) =>
      if EvCondition(ev, it, a) == Ok(false) then AfterCondition(ev, it, b) else AfterCondition(ev, it, a)
    case Conjunction(a, b) =>
      if EvCondition(ev, it, a) == Ok(true) then AfterCondition(ev, it, b) else AfterCondition(ev, it, a)
    case Negation(a) => AfterCondition(ev, it, a)
    case StringCompare(_, haystack, _) =>
      assert EvText(ev, it, haystack).Ok? ==> EvString(ev, it, haystack).Ok?;
      AfterString(ev, it, haystack)
    case Compare(a, _, b) =>
      assert EvImm(ev, it, b).Ok? ==> EvValue(ev, it, b).Ok?;
      if EvImm(ev, it, a).Err? then AfterValue(ev, it, a) else AfterValue(ev, it, b)
    case Match(kind, over, each) =>
      (match EvItems(ev, it, over)
       case Err(_) => AfterReference(ev, it, over)
       case Ok(items) => AfterMatch(ev, it, kind, items, each))
    case Instanceof(r, _) =>
      assert EvUsed(ev, it, r).Ok? ==> EvReference(ev, it, r).Ok?;
      AfterReference(ev, it, r)
    case IsDefined(r) => AfterReference(ev, it, r)
    case IsEmpty(r) =>
      assert EvUsed(ev, it, r).Ok? ==> EvReference(ev, it, r).Ok?;
      AfterReference(ev, it, r)
  }
}
