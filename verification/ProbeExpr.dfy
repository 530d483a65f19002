/** The expression language of probes (live-debugger/src/expr_defs.rs) and what an evaluator must provide. */
module ProbeExpr {
  import opened Wrappers

  datatype CollectionSource =
    | RefSource(reference: Reference)
    | Filter(source: CollectionSource, condition: Condition)

  datatype Reference =
    | IteratorVariable
    | Base(name: string)
    | Index(collection: CollectionSource, dimension: Value)
    | Nested(outer: Reference, member: Value)

  datatype BinaryComparison = Equals | NotEquals | GreaterThan | GreaterOrEquals | LowerThan | LowerOrEquals

  datatype StringComparison = StartsWith | EndsWith | Contains | Matches

  datatype CollectionMatch = All | Any

  datatype Condition =
    | Always
    | Never
    | Disjunction(left: Condition, right: Condition)
    | Conjunction(left: Condition, right: Condition)
    | Negation(negated: Condition)
    | StringCompare(comparer: StringComparison, haystack: StringSource, needle: string)
    | Compare(a: Value, comparison: BinaryComparison, b: Value)
    | Match(kind: CollectionMatch, over: Reference, each: Condition)
    | Instanceof(reference: Reference, name: string)
    | IsDefined(reference: Reference)
    | IsEmpty(reference: Reference)

  datatype NumberSource =
    | Number(n: real)
    | CollectionSize(collection: CollectionSource)
    | NumberRef(reference: Reference)

  datatype StringSource =
    | Text(text: string)
    | Substring(base: StringSource, start: NumberSource, end: NumberSource)
    | NullText
    | StringRef(reference: Reference)

  datatype Value =
    | BoolValue(condition: Condition)
    | StringValue(str: StringSource)
    | NumberValue(number: NumberSource)

  datatype DslPart =
    | RefPart(collection: CollectionSource)
    | ValuePart(value: Value)
    | TextPart(text: string)

  /** A value in flight; `Ref` is a value owned by the debugged program. */
  datatype Imm<+I> = Str(s: string) | Num(n: real) | Boolean(b: bool) | Null | Ref(r: I)

  datatype FetchError = Undefined | Invalid | Redacted

  /** The errors `try_enumerate` and `convert_index` may report: the source rules out Undefined. */
  datatype ConvertError = NotConvertible | IsRedacted

  /** A reference that could not be resolved. */
  datatype InvalidFetch<+I> =
    | NoIterator
    | Identifier(e: FetchError, name: string)
    | IndexFetch(e: FetchError, collection: CollectionSource, dimension: Value, base: I, index: Imm<I>)
    | IndexEvaluated(collection: CollectionSource, dimension: Value, items: seq<I>, at: nat)
    | NestedFetch(e: FetchError, outer: Reference, member: Value, base: I, index: Imm<I>)

  /** An evaluation error; its message is a function of these fields. */
  datatype EvErr<+I> =
    | Refed(fetch: InvalidFetch<I>)
    | BadIndexText(text: string)
    | BooleanIndex
    | NotAnIndex(value: I)
    | RedactedIndex
    | FromNumber(inner: EvErr<I>, number: NumberSource)
    | FromDimension(inner: EvErr<I>, dimension: Value)
    | OutOfBounds(start: nat, end: nat, str: StringSource, size: nat)
    | NotIterable(reference: Reference, value: I)
    | RedactedCollection(reference: Reference)
    | BadRegex(needle: string)

  /** The debugger's callbacks, and the library calls on text and numbers, as pure functions. */
  datatype Evaluator<!I> = Evaluator(
    equals: (Imm<I>, Imm<I>) -> bool,
    greaterThan: (Imm<I>, Imm<I>) -> bool,
    greaterOrEquals: (Imm<I>, Imm<I>) -> bool,
    fetchIdentifier: string -> Result<I, FetchError>,
    fetchIndex: (I, Imm<I>) -> Result<I, FetchError>,
    fetchNested: (I, Imm<I>) -> Result<I, FetchError>,
    length: I -> nat,
    tryEnumerate: I -> Result<seq<I>, ConvertError>,
    stringify: I -> string,
    getString: I -> string,
    convertIndex: I -> Result<nat, ConvertError>,
    instanceOf: (I, string) -> bool,
    regexMatch: (string, string) -> Option<bool>,
    showNumber: real -> string,
    parseIndex: string -> Option<nat>)
}
