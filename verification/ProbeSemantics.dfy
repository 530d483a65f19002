/**
 * The meaning of probe expressions: an environment-passing semantics in which
 * the iterator variable is an argument, so nothing has to be restored.
 */
module ProbeSemantics {
  import opened Arith
  import opened Wrappers
  import opened ProbeExpr

  /** A resolved reference, or why it could not be resolved. */
  type Fetch<+I> = Result<I, InvalidFetch<I>>

  /** A value, or the unresolved reference it stands for. */
  type MaybeImm<+I> = Result<Imm<I>, InvalidFetch<I>>

  function TryUse<T, I>(r: Result<T, InvalidFetch<I>>): Result<T, EvErr<I>> {
    match r
    case Ok(v) => Ok(v)
    case Err(e) => Err(Refed(e))
  }

  function IntoImm<I>(r: Fetch<I>): MaybeImm<I> {
    match r
    case Ok(v) => Ok(Ref(v))
    case Err(e) => Err(e)
  }

  /** A float cast to an index: truncated, and saturated at both ends. */
  function FloatToIndex(n: real): (r: nat)
    ensures 0.0 <= n < USIZE_MAX as real ==> r as real <= n < r as real + 1.0
    ensures n < 0.0 ==> r == 0
    ensures USIZE_MAX as real <= n ==> r == USIZE_MAX
  {
    if n < 0.0 then 0 else if n.Floor > USIZE_MAX then USIZE_MAX else n.Floor
  }

  function ConvertIndex<I>(ev: Evaluator<I>, v: Imm<I>): Result<nat, EvErr<I>> {
    match v
    case Str(s) => (match ev.parseIndex(s) case Some(n) => Ok(n) case None => Err(BadIndexText(s)))
    case Num(n) => Ok(FloatToIndex(n))
    case Boolean(_) => Err(BooleanIndex)
    case Null => Ok(0)
    case Ref(r) =>
      match ev.convertIndex(r)
      case Ok(n) => Ok(n)
      case Err(NotConvertible) => Err(NotAnIndex(r))
      case Err(IsRedacted) => Err(RedactedIndex)
  }

  function StringifyImm<I>(ev: Evaluator<I>, v: Imm<I>): string {
    match v
    case Str(s) => s
    case Num(n) => ev.showNumber(n)
    case Boolean(b) => if b then "true" else "false"
    case Null => ""
    case Ref(r) => ev.stringify(r)
  }

  function GetString<I>(ev: Evaluator<I>, v: Imm<I>): string {
    if v.Ref? then ev.getString(v.r) else StringifyImm(ev, v)
  }

  function Enumerate<I>(ev: Evaluator<I>, reference: Reference, v: I): Result<seq<I>, EvErr<I>> {
    match ev.tryEnumerate(v)
    case Ok(items) => Ok(items)
    case Err(NotConvertible) => Err(NotIterable(reference, v))
    case Err(IsRedacted) => Err(RedactedCollection(reference))
  }

  /** From `start` up to `end` or the end of the string; the empty slice at the very end is allowed, past it none is. */
  function Slice<I>(str: string, start: nat, end: nat, whole: StringSource): (r: Result<string, EvErr<I>>)
    ensures r.Ok? <==> start <= end && (start < |str| || start == end == |str|)
    ensures r.Ok? ==> start <= |str| && str[..start] + r.value <= str
    ensures r.Ok? ==> |r.value| == end - start || start + |r.value| == |str| < end
  {
    if start > end || start > |str| || (start == |str| && start != end) then Err(OutOfBounds(start, end, whole, |str|))
    else Ok(str[start..if end < |str| then end else |str|])
  }

  predicate HasInfix(haystack: string, needle: string)
    ensures HasInfix(haystack, needle) <==> exists i | 0 <= i <= |haystack| :: needle <= haystack[i..]
  {
    assert haystack[0..] == haystack;
    assert forall i | 0 < i <= |haystack| :: haystack[i..] == haystack[1..][i - 1..];
    needle <= haystack || (haystack != [] && HasInfix(haystack[1..], needle))
  }

  function CompareStrings<I>(ev: Evaluator<I>, comparer: StringComparison, haystack: string, needle: string): Result<bool, EvErr<I>> {
    match comparer
    case StartsWith => Ok(needle <= haystack)
    case EndsWith => Ok(|needle| <= |haystack| && haystack[|haystack| - |needle|..] == needle)
    case Contains => Ok(HasInfix(haystack, needle))
    case Matches => (match ev.regexMatch(needle, haystack) case Some(b) => Ok(b) case None => Err(BadRegex(needle)))
  }

  function CompareImms<I>(ev: Evaluator<I>, comparison: BinaryComparison, a: Imm<I>, b: Imm<I>): bool {
    match comparison
    case Equals => ev.equals(a, b)
    case NotEquals => !ev.equals(a, b)
    case GreaterThan => ev.greaterThan(a, b)
    case GreaterOrEquals => ev.greaterOrEquals(a, b)
    case LowerThan => !ev.greaterOrEquals(a, b)
    case LowerOrEquals => !ev.greaterThan(a, b)
  }

  function EvValue<I>(ev: Evaluator<I>, it: Option<I>, value: Value): Result<MaybeImm<I>, EvErr<I>>
    decreases value, 0, 0
  {
    match value
    case BoolValue(c) => var b :- EvCondition(ev, it, c); Ok(Ok(Boolean(b)))
    case StringValue(s) => EvString(ev, it, s)
    case NumberValue(n) => EvNumber(ev, it, n)
  }

  function EvImm<I>(ev: Evaluator<I>, it: Option<I>, value: Value): Result<Imm<I>, EvErr<I>>
    decreases value, 1, 0
  {
    var v :- EvValue(ev, it, value);
    TryUse(v)
  }

  function EvNumber<I>(ev: Evaluator<I>, it: Option<I>, number: NumberSource): Result<MaybeImm<I>, EvErr<I>>
    decreases number, 0, 0
  {
    match number
    case Number(n) => Ok(Ok(Num(n)))
    case CollectionSize(RefSource(r)) =>
      var v :- EvUsed(ev, it, r);
      Ok(Ok(Num(ev.length(v) as real)))
    case CollectionSize(Filter(s, c)) =>
      var items :- EvCollection(ev, it, Filter(s, c));
      Ok(Ok(Num(|items| as real)))
    case NumberRef(r) =>
      var f :- EvReference(ev, it, r);
      Ok(IntoImm(f))
  }

  function EvIndex<I>(ev: Evaluator<I>, it: Option<I>, number: NumberSource): Result<nat, EvErr<I>>
    decreases number, 1, 0
  {
    var m :- EvNumber(ev, it, number);
    var v :- TryUse(m);
    ConvertIndex(ev, v).MapErr(e => FromNumber(e, number))
  }

  function EvString<I>(ev: Evaluator<I>, it: Option<I>, str: StringSource): Result<MaybeImm<I>, EvErr<I>>
    decreases str, 0, 0
  {
    match str
    case Text(s) => Ok(Ok(Str(s)))
    case Substring(base, start, end) =>
      var text :- EvText(ev, it, base);
      var from :- EvIndex(ev, it, start);
      var to :- EvIndex(ev, it, end);
      var part :- Slice(text, from, to, str);
      Ok(Ok(Str(part)))
    case NullText => Ok(Ok(Null))
    case StringRef(r) =>
      var f :- EvReference(ev, it, r);
      Ok(IntoImm(f))
  }

  function EvText<I>(ev: Evaluator<I>, it: Option<I>, str: StringSource): Result<string, EvErr<I>>
    decreases str, 1, 0
  {
    var m :- EvString(ev, it, str);
    var v :- TryUse(m);
    Ok(StringifyImm(ev, v))
  }

  function EvReference<I>(ev: Evaluator<I>, it: Option<I>, reference: Reference): Result<Fetch<I>, EvErr<I>>
    decreases reference, 0, 0
  {
    match reference
    case IteratorVariable => Ok(match it case Some(v) => Ok(v) case None => Err(NoIterator))
    case Base(name) => Ok(ev.fetchIdentifier(name).MapErr(e => Identifier(e, name)))
    case Index(collection, dimension) =>
      var index :- EvImm(ev, it, dimension);
      (match collection
       case Filter(_, _) =>
         var at :- ConvertIndex(ev, index).MapErr(e => FromDimension(e, dimension));
         var items :- EvCollection(ev, it, collection);
         Ok(if at < |items| then Ok(items[at]) else Err(IndexEvaluated(collection, dimension, items, at)))
       case RefSource(r) =>
         var f :- EvReference(ev, it, r);
         Ok(match f
            case Ok(base) => ev.fetchIndex(base, index).MapErr(e => IndexFetch(e, collection, dimension, base, index))
            case Err(e) => Err(e)))
    case Nested(outer, member) =>
      var index :- EvImm(ev, it, member);
      var f :- EvReference(ev, it, outer);
      Ok(match f
         case Ok(base) => ev.fetchNested(base, index).MapErr(e => NestedFetch(e, outer, member, base, index))
         case Err(e) => Err(e))
  }

  function EvUsed<I>(ev: Evaluator<I>, it: Option<I>, reference: Reference): Result<I, EvErr<I>>
    decreases reference, 1, 0
  {
    var f :- EvReference(ev, it, reference);
    TryUse(f)
  }

  function EvItems<I>(ev: Evaluator<I>, it: Option<I>, reference: Reference): Result<seq<I>, EvErr<I>>
    decreases reference, 2, 0
  {
    var v :- EvUsed(ev, it, reference);
    Enumerate(ev, reference, v)
  }

  function EvCollection<I>(ev: Evaluator<I>, it: Option<I>, collection: CollectionSource): Result<seq<I>, EvErr<I>>
    decreases collection, 0, 0
  {
    match collection
    case RefSource(r) => EvItems(ev, it, r)
    case Filter(source, c) =>
      var items :- EvCollection(ev, it, source);
      EvFilter(ev, items, c)
  }

  /** The items on which the condition holds; the first failing item fails the whole. */
  function EvFilter<I>(ev: Evaluator<I>, items: seq<I>, c: Condition): Result<seq<I>, EvErr<I>>
    decreases c, 1, |items|
  {
    if items == [] then Ok([])
    else
      var keep :- EvCondition(ev, Some(items[0]), c);
      var rest :- EvFilter(ev, items[1..], c);
      Ok(if keep then [items[0]] + rest else rest)
  }

  /** Whether the condition holds on every item, in order, stopping at the first that decides. */
  function EvAll<I>(ev: Evaluator<I>, items: seq<I>, c: Condition): Result<bool, EvErr<I>>
    decreases c, 1, |items|
  {
    if items == [] then Ok(true)
    else
      var holds :- EvCondition(ev, Some(items[0]), c);
      if holds then EvAll(ev, items[1..], c) else Ok(false)
  }

  function EvAny<I>(ev: Evaluator<I>, items: seq<I>, c: Condition): Result<bool, EvErr<I>>
    decreases c, 1, |items|
  {
    if items == [] then Ok(false)
    else
      var holds :- EvCondition(ev, Some(items[0]), c);
      if holds then Ok(true) else EvAny(ev, items[1..], c)
  }

  function EvCondition<I>(ev: Evaluator<I>, it: Option<I>, c: Condition): Result<bool, EvErr<I>>
    decreases c, 0, 0
  {
    match c
    case Always => Ok(true)
    case Never => Ok(false)
    case Disjunction(a, b) =>
      var l :- EvCondition(ev, it, a);
      if l then Ok(true) else EvCondition(ev, it, b)
    case Conjunction(a, b) =>
      var l :- EvCondition(ev, it, a);
      if l then EvCondition(ev, it, b) else Ok(false)
    case Negation(a) =>
      var l :- EvCondition(ev, it, a);
      Ok(!l)
    case StringCompare(comparer, haystack, needle) =>
      var text :- EvText(ev, it, haystack);
      CompareStrings(ev, comparer, text, needle)
    case Compare(a, comparison, b) =>
      var x :- EvImm(ev, it, a);
      var y :- EvImm(ev, it, b);
      Ok(CompareImms(ev, comparison, x, y))
    case Match(kind, over, each) =>
      var items :- EvItems(ev, it, over);
      if kind.All? then EvAll(ev, items, each) else EvAny(ev, items, each)
    case Instanceof(r, name) =>
      var v :- EvUsed(ev, it, r);
      Ok(ev.instanceOf(v, name))
    case IsDefined(r) =>
      var f :- EvReference(ev, it, r);
      Ok(f.Ok?)
    case IsEmpty(r) =>
      var v :- EvUsed(ev, it, r);
      Ok(ev.length(v) == 0)
  }
}
