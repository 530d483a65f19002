/**
 * The evaluator of live-debugger/src/expr_eval.rs: one object whose `it` field
 * holds the current iterator variable, overwritten and restored by every
 * filter, any and all. Each method refines the environment-passing semantics,
 * and puts `it` back whenever it succeeds.
 */
module ProbeEval {
  import opened Wrappers
  import opened ProbeExpr
  import opened ProbeSemantics
  import opened ProbeResidue

  /** A result with items put in front of it. */
  ghost function After<I>(values: seq<I>, r: Result<seq<I>, EvErr<I>>): (s: Result<seq<I>, EvErr<I>>)
    ensures values == [] ==> s == r
  {
    match r
    case Ok(rest) => assert [] + rest == rest; Ok(values + rest)
    case Err(e) => Err(e)
  }

  lemma AfterOne<I>(values: seq<I>, v: I, r: Result<seq<I>, EvErr<I>>)
    ensures After(values, After([v], r)) == After(values + [v], r)
  {
    if r.Ok? {
      assert values + ([v] + r.value) == values + [v] + r.value;
    }
  }

  class Eval<I> {
    const ev: Evaluator<I>
    var it: Option<I>

    constructor (ev: Evaluator<I>)
      ensures this.ev == ev && it == None
    {
      this.ev, it := ev, None;
    }

    method GetValue(value: Value) returns (r: Result<MaybeImm<I>, EvErr<I>>)
      modifies this
      ensures r == EvValue(ev, old(it), value) && it == AfterValue(ev, old(it), value)
      decreases value, 0, 0
    {
      match value
      case BoolValue(c) =>
        var b :- Holds(c);
        return Ok(Ok(Boolean(b)));
      case StringValue(s) =>
        r := GetStringSource(s);
      case NumberValue(n) =>
        r := GetNumber(n);
    }

    method GetImm(value: Value) returns (r: Result<Imm<I>, EvErr<I>>)
      modifies this
      ensures r == EvImm(ev, old(it), value) && it == AfterValue(ev, old(it), value)
      decreases value, 1, 0
    {
      var v :- GetValue(value);
      return TryUse(v);
    }

    method GetNumber(number: NumberSource) returns (r: Result<MaybeImm<I>, EvErr<I>>)
      modifies this
      ensures r == EvNumber(ev, old(it), number) && it == AfterNumber(ev, old(it), number)
      decreases number, 0, 0
    {
      match number
      case Number(n) =>
        return Ok(Ok(Num(n)));
      case CollectionSize(RefSource(reference)) =>
        var v :- UseReference(reference);
        return Ok(Ok(Num(ev.length(v) as real)));
      case CollectionSize(Filter(_, _)) =>
        var items :- GetCollection(number.collection);
        return Ok(Ok(Num(|items| as real)));
      case NumberRef(reference) =>
        var f :- GetReference(reference);
        return Ok(IntoImm(f));
    }

    method GetIndex(number: NumberSource) returns (r: Result<nat, EvErr<I>>)
      modifies this
      ensures r == EvIndex(ev, old(it), number) && it == AfterNumber(ev, old(it), number)
      decreases number, 1, 0
    {
      var m :- GetNumber(number);
      var v :- TryUse(m);
      return ConvertIndex(ev, v).MapErr(e => FromNumber(e, number));
    }

    method GetStringSource(str: StringSource) returns (r: Result<MaybeImm<I>, EvErr<I>>)
      modifies this
      ensures r == EvString(ev, old(it), str) && it == AfterString(ev, old(it), str)
      decreases str, 0, 0
    {
      match str
      case Text(s) =>
        return Ok(Ok(Str(s)));
      case Substring(base, start, end) =>
        var text :- GetText(base);
        var from :- GetIndex(start);
        var to :- GetIndex(end);
        var part :- Slice(text, from, to, str);
        return Ok(Ok(Str(part)));
      case NullText =>
        return Ok(Ok(Null));
      case StringRef(reference) =>
        var f :- GetReference(reference);
        return Ok(IntoImm(f));
    }

    method GetText(str: StringSource) returns (r: Result<string, EvErr<I>>)
      modifies this
      ensures r == EvText(ev, old(it), str) && it == AfterString(ev, old(it), str)
      decreases str, 1, 0
    {
      var m :- GetStringSource(str);
      var v :- TryUse(m);
      return Ok(StringifyImm(ev, v));
    }

    method GetReference(reference: Reference) returns (r: Result<Fetch<I>, EvErr<I>>)
      modifies this
      ensures r == EvReference(ev, old(it), reference) && it == AfterReference(ev, old(it), reference)
      decreases reference, 0, 0
    {
      match reference
      case IteratorVariable =>
        return Ok(if it.Some? then Ok(it.value) else Err(NoIterator));
      case Base(name) =>
        return Ok(ev.fetchIdentifier(name).MapErr(e => Identifier(e, name)));
      case Index(collection, dimension) =>
        var index :- GetImm(dimension);
        match collection {
          case Filter(_, _) =>
            var at :- ConvertIndex(ev, index).MapErr(e => FromDimension(e, dimension));
            var items :- GetCollection(collection);
            return Ok(if at < |items| then Ok(items[at]) else Err(IndexEvaluated(collection, dimension, items, at)));
          case RefSource(base) =>
            var f :- GetReference(base);
            match f {
              case Ok(v) => return Ok(ev.fetchIndex(v, index).MapErr(e => IndexFetch(e, collection, dimension, v, index)));
              case Err(e) => return Ok(Err(e));
            }
        }
      case Nested(outer, member) =>
        var index :- GetImm(member);
        var f :- GetReference(outer);
        match f {
          case Ok(v) => return Ok(ev.fetchNested(v, index).MapErr(e => NestedFetch(e, outer, member, v, index)));
          case Err(e) => return Ok(Err(e));
        }
    }

    method UseReference(reference: Reference) returns (r: Result<I, EvErr<I>>)
      modifies this
      ensures r == EvUsed(ev, old(it), reference) && it == AfterReference(ev, old(it), reference)
      decreases reference, 1, 0
    {
      var f :- GetReference(reference);
      return TryUse(f);
    }

    method GetItems(reference: Reference) returns (r: Result<seq<I>, EvErr<I>>)
      modifies this
      ensures r == EvItems(ev, old(it), reference) && it == AfterReference(ev, old(it), reference)
      decreases reference, 2, 0
    {
      var v :- UseReference(reference);
      return Enumerate(ev, reference, v);
    }

    method GetCollection(collection: CollectionSource) returns (r: Result<seq<I>, EvErr<I>>)
      modifies this
      ensures r == EvCollection(ev, old(it), collection) && it == AfterCollection(ev, old(it), collection)
      decreases collection, 0, 0
    {
      match collection
      case RefSource(reference) =>
        r := GetItems(reference);
      case Filter(source, condition) =>
        var values, saved := [], it;
        var items :- GetCollection(source);
        ghost var whole := EvFilter(ev, items, condition);
        assert items[0..] == items;
        for i := 0 to |items|
          invariant whole == After(values, EvFilter(ev, items[i..], condition))
          invariant AfterFilter(ev, saved, items, condition) == AfterFilter(ev, saved, items[i..], condition)
        {
          it := Some(items[i]);
          assert items[i..][1..] == items[i + 1..];
          var keep :- Holds(condition);
          if keep {
            AfterOne(values, items[i], EvFilter(ev, items[i + 1..], condition));
            values := values + [items[i]];
          }
        }
        it := saved;
        assert items[|items|..] == [] && values + [] == values;
        return Ok(values);
    }

    method MatchAll(items: seq<I>, condition: Condition, ghost saved: Option<I>) returns (r: Result<bool, EvErr<I>>)
      modifies this
      ensures r == EvAll(ev, items, condition)
      ensures r.Err? ==> it == AfterMatch(ev, saved, All, items, condition)
      decreases condition, 1, 0
    {
      for i := 0 to |items|
        invariant EvAll(ev, items, condition) == EvAll(ev, items[i..], condition)
        invariant AfterMatch(ev, saved, All, items, condition) == AfterMatch(ev, saved, All, items[i..], condition)
      {
        it := Some(items[i]);
        assert items[i..][1..] == items[i + 1..];
        var holds :- Holds(condition);
        if !holds {
          return Ok(false);
        }
      }
      return Ok(true);
    }

    method MatchAny(items: seq<I>, condition: Condition, ghost saved: Option<I>) returns (r: Result<bool, EvErr<I>>)
      modifies this
      ensures r == EvAny(ev, items, condition)
      ensures r.Err? ==> it == AfterMatch(ev, saved, Any, items, condition)
      decreases condition, 1, 0
    {
      for i := 0 to |items|
        invariant EvAny(ev, items, condition) == EvAny(ev, items[i..], condition)
        invariant AfterMatch(ev, saved, Any, items, condition) == AfterMatch(ev, saved, Any, items[i..], condition)
      {
        it := Some(items[i]);
        assert items[i..][1..] == items[i + 1..];
        var holds :- Holds(condition);
        if holds {
          return Ok(true);
        }
      }
      return Ok(false);
    }

    method Holds(c: Condition) returns (r: Result<bool, EvErr<I>>)
      modifies this
      ensures r == EvCondition(ev, old(it), c) && it == AfterCondition(ev, old(it), c)
      decreases c, 0, 0
    {
      match c
      case Always =>
        return Ok(true);
      case Never =>
        return Ok(false);
      case Disjunction(a, b) =>
        var l :- Holds(a);
        if l {
          return Ok(true);
        }
        r := Holds(b);
      case Conjunction(a, b) =>
        var l :- Holds(a);
        if !l {
          return Ok(false);
        }
        r := Holds(b);
      case Negation(a) =>
        var l :- Holds(a);
        return Ok(!l);
      case StringCompare(comparer, haystack, needle) =>
        var text :- GetText(haystack);
        return CompareStrings(ev, comparer, text, needle);
      case Compare(a, comparison, b) =>
        var x :- GetImm(a);
        var y :- GetImm(b);
        return Ok(CompareImms(ev, comparison, x, y));
      case Match(kind, over, each) =>
        var items :- GetItems(over);
        var saved := it;
        var result;
        if kind.All? {
          result :- MatchAll(items, each, saved);
        } else {
          result :- MatchAny(items, each, saved);
        }
        it := saved;
        return Ok(result);
      case Instanceof(reference, name) =>
        var v :- UseReference(reference);
        return Ok(ev.instanceOf(v, name));
      case IsDefined(reference) =>
        var f :- GetReference(reference);
        return Ok(f.Ok?);
      case IsEmpty(reference) =>
        var v :- UseReference(reference);
        return Ok(ev.length(v) == 0);
    }
  }
}
