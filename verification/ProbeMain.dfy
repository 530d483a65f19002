/** The entry points of the evaluator: a condition, a value, and a message template. */
module ProbeMain {
  import opened Wrappers
  import opened Texts
  import opened ProbeExpr
  import opened ProbeSemantics
  import opened ProbeResidue
  import opened ProbeEval
  import opened ProbeLaws

  method EvalCondition<I>(ev: Evaluator<I>, c: Condition) returns (r: Result<bool, EvErr<I>>)
    ensures r == EvCondition(ev, None, c)
  {
    var eval := new Eval(ev);
    r := eval.Holds(c);
  }

  method EvalValue<I>(ev: Evaluator<I>, value: Value) returns (r: Result<Imm<I>, EvErr<I>>)
    ensures r == EvImm(ev, None, value)
  {
    var eval := new Eval(ev);
    r := eval.GetImm(value);
  }

  // ---------- Templates ----------

  function ItemStrings<I>(ev: Evaluator<I>, items: seq<I>): seq<string> {
    seq(|items|, i requires 0 <= i < |items| => ev.getString(items[i]))
  }

  /** The text of one part, with the iterator variable as its only context. */
  function EvPart<I>(ev: Evaluator<I>, it: Option<I>, part: DslPart): Result<string, EvErr<I>> {
    match part
    case TextPart(s) => Ok(s)
    case ValuePart(v) =>
      var imm :- EvImm(ev, it, v);
      Ok(GetString(ev, imm))
    case RefPart(RefSource(r)) =>
      var v :- EvUsed(ev, it, r);
      Ok(ev.getString(v))
    case RefPart(Filter(_, _)) =>
      var items :- EvCollection(ev, it, part.collection);
      Ok("[" + Join(ItemStrings(ev, items), ", ") + "]")
  }

  /** What a template shows for each kind of part. */
  lemma PartsShow<I>(ev: Evaluator<I>, it: Option<I>, s: string, n: real, c: Condition, r: Reference)
    ensures EvPart(ev, it, TextPart(s)) == EvPart(ev, it, ValuePart(StringValue(Text(s)))) == Ok(s)
    ensures EvPart(ev, it, ValuePart(StringValue(NullText))) == Ok("")
    ensures EvPart(ev, it, ValuePart(NumberValue(Number(n)))) == Ok(ev.showNumber(n))
    ensures EvPart(ev, it, RefPart(RefSource(r))) == EvPart(ev, it, ValuePart(StringValue(StringRef(r))))
    ensures EvCondition(ev, it, c) == Ok(true) ==> EvPart(ev, it, ValuePart(BoolValue(c))) == Ok("true")
    ensures EvCondition(ev, it, c) == Ok(false) ==> EvPart(ev, it, ValuePart(BoolValue(c))) == Ok("false")
  {
    ImmOfConstant(ev, it, s, n);
    ImmOfReference(ev, it, r);
    ImmOfCondition(ev, it, c);
    hide EvImm, EvUsed, EvCondition;
  }

  lemma ImmOfConstant<I>(ev: Evaluator<I>, it: Option<I>, s: string, n: real)
    ensures EvImm(ev, it, StringValue(Text(s))) == Ok(Str(s)) && EvImm(ev, it, StringValue(NullText)) == Ok(Null)
    ensures EvImm(ev, it, NumberValue(Number(n))) == Ok(Num(n))
  {
    assert EvNumber(ev, it, Number(n)) == Ok(Ok(Num(n)));
    assert EvString(ev, it, Text(s)) == Ok(Ok(Str(s))) && EvString(ev, it, NullText) == Ok(Ok(Null));
  }

  lemma ImmOfReference<I>(ev: Evaluator<I>, it: Option<I>, r: Reference)
    ensures
      EvImm(ev, it, StringValue(StringRef(r))) ==
      match EvUsed(ev, it, r)
      case Ok(v) => Ok(Ref(v))
      case Err(e) => Err(e)
  {
    assert EvValue(ev, it, StringValue(StringRef(r))) == EvString(ev, it, StringRef(r));
  }

  lemma ImmOfCondition<I>(ev: Evaluator<I>, it: Option<I>, c: Condition)
    ensures
      EvImm(ev, it, BoolValue(c)) ==
      match EvCondition(ev, it, c)
      case Ok(b) => Ok(Boolean(b))
      case Err(e) => Err(e)
  {
    hide EvCondition;
  }

  /** A filtered collection is shown as the bracketed, comma-separated list of its items. */
  lemma ListShows<I>(ev: Evaluator<I>, it: Option<I>, c: CollectionSource, p: Condition, items: seq<I>, v: I)
    ensures EvCollection(ev, it, Filter(c, p)) == Ok([]) ==> EvPart(ev, it, RefPart(Filter(c, p))) == Ok("[]")
    ensures EvCollection(ev, it, Filter(c, p)) == Ok([v]) ==>
              EvPart(ev, it, RefPart(Filter(c, p))) == Ok("[" + ev.getString(v) + "]")
    ensures items != [] && EvCollection(ev, it, Filter(c, p)) == Ok([v] + items) ==>
              EvPart(ev, it, RefPart(Filter(c, p))) ==
              Ok("[" + (ev.getString(v) + ", " + Join(ItemStrings(ev, items), ", ")) + "]")
  {
    hide EvCollection;
    assert "[]" == "[" + "" + "]";
    assert ItemStrings(ev, []) == [] && ItemStrings(ev, [v]) == [ev.getString(v)];
    assert ItemStrings(ev, [v] + items) == [ev.getString(v)] + ItemStrings(ev, items);
    assert ([ev.getString(v)] + ItemStrings(ev, items))[1..] == ItemStrings(ev, items);
  }

  predicate IteratesPart(part: DslPart) {
    match part
    case TextPart(_) => false
    case ValuePart(v) => IteratesValue(v)
    case RefPart(c) => IteratesCollection(c)
  }

  ghost function AfterPart<I>(ev: Evaluator<I>, it: Option<I>, part: DslPart): (r: Option<I>)
    ensures EvPart(ev, it, part).Ok? || !IteratesPart(part) ==> r == it
    ensures it.Some? ==> r.Some?
  {
    match part
    case TextPart(_) => it
    case ValuePart(v) => AfterValue(ev, it, v)
    case RefPart(RefSource(r)) => AfterReference(ev, it, r)
    case RefPart(Filter(_, _)) => AfterCollection(ev, it, part.collection)
  }

  /** The text of a template, and the parts that failed with their errors. */
  datatype Rendered<+I> = Rendered(text: string, errors: seq<(DslPart, EvErr<I>)>)

  ghost function Append<I>(done: Rendered<I>, part: DslPart, r: Result<string, EvErr<I>>): Rendered<I> {
    match r
    case Ok(s) => Rendered(done.text + s, done.errors)
    case Err(e) => Rendered(done.text + "UNDEFINED", done.errors + [(part, e)])
  }

  /** The template with each part evaluated in what its predecessors left behind. */
  ghost function Render<I>(ev: Evaluator<I>, parts: seq<DslPart>): (Rendered<I>, Option<I>) {
    if parts == [] then (Rendered("", []), None)
    else
      var k := |parts| - 1;
      var (done, it) := Render(ev, parts[..k]);
      (Append(done, parts[k], EvPart(ev, it, parts[k])), AfterPart(ev, it, parts[k]))
  }

  /** The template read from the front: the text or the placeholder of the first part, then the rest. */
  ghost function RenderFrom<I>(ev: Evaluator<I>, it: Option<I>, parts: seq<DslPart>): (Rendered<I>, Option<I>)
    decreases |parts|
  {
    if parts == [] then (Rendered("", []), it)
    else
      var r := EvPart(ev, it, parts[0]);
      var (text, errors) := if r.Ok? then (r.value, []) else ("UNDEFINED", [(parts[0], r.error)]);
      var (rest, end) := RenderFrom(ev, AfterPart(ev, it, parts[0]), parts[1..]);
      (Rendered(text + rest.text, errors + rest.errors), end)
  }

  lemma AppendIsLast<I>(
    text: string, errors: seq<(DslPart, EvErr<I>)>, done: Rendered<I>, part: DslPart, r: Result<string, EvErr<I>>)
    ensures
      var more := Append(done, part, r);
      Append(Rendered(text + done.text, errors + done.errors), part, r) == Rendered(text + more.text, errors + more.errors)
  {
  }

  lemma AppendOne<I>(part: DslPart, r: Result<string, EvErr<I>>)
    ensures
      Append(Rendered("", []), part, r) ==
      if r.Ok? then Rendered(r.value + "", [] + []) else Rendered("UNDEFINED" + "", [(part, r.error)] + [])
  {
  }

  lemma {:induction false} RenderFromMore<I>(ev: Evaluator<I>, it: Option<I>, parts: seq<DslPart>, next: DslPart)
    ensures
      var (done, mid) := RenderFrom(ev, it, parts);
      RenderFrom(ev, it, parts + [next]) == (Append(done, next, EvPart(ev, mid, next)), AfterPart(ev, mid, next))
    decreases |parts|
  {
    hide EvPart, AfterPart, Append;
    if parts == [] {
      assert parts + [next] == [next];
      AppendOne(next, EvPart(ev, it, next));
    } else {
      var r := EvPart(ev, it, parts[0]);
      var (done, mid) := RenderFrom(ev, AfterPart(ev, it, parts[0]), parts[1..]);
      if r.Ok? {
        AppendIsLast(r.value, [], done, next, EvPart(ev, mid, next));
      } else {
        AppendIsLast("UNDEFINED", [(parts[0], r.error)], done, next, EvPart(ev, mid, next));
      }
      RenderFromMore(ev, AfterPart(ev, it, parts[0]), parts[1..], next);
      assert (parts + [next])[1..] == parts[1..] + [next];
    }
  }

  /** The loop over the parts renders them in order, with the error of every part that failed, in order. */
  lemma {:induction false} RendersInOrder<I>(ev: Evaluator<I>, parts: seq<DslPart>)
    ensures Render(ev, parts) == RenderFrom(ev, None, parts)
  {
    hide EvPart, AfterPart;
    if parts != [] {
      var k := |parts| - 1;
      RendersInOrder(ev, parts[..k]);
      RenderFromMore(ev, None, parts[..k], parts[k]);
      assert parts[..k] + [parts[k]] == parts;
    }
  }

  /** The template with each part evaluated on its own. */
  ghost function RenderAlone<I>(ev: Evaluator<I>, parts: seq<DslPart>): Rendered<I> {
    if parts == [] then Rendered("", [])
    else
      var k := |parts| - 1;
      Append(RenderAlone(ev, parts[..k]), parts[k], EvPart(ev, None, parts[k]))
  }

  method EvalPart<I>(eval: Eval<I>, part: DslPart) returns (r: Result<string, EvErr<I>>)
    modifies eval
    ensures r == EvPart(eval.ev, old(eval.it), part) && eval.it == AfterPart(eval.ev, old(eval.it), part)
  {
    match part
    case TextPart(s) =>
      return Ok(s);
    case ValuePart(v) =>
      var imm :- eval.GetImm(v);
      return Ok(GetString(eval.ev, imm));
    case RefPart(RefSource(reference)) =>
      var v :- eval.UseReference(reference);
      return Ok(eval.ev.getString(v));
    case RefPart(Filter(_, _)) =>
      var items :- eval.GetCollection(part.collection);
      var strings := [];
      for i := 0 to |items|
        invariant strings == ItemStrings(eval.ev, items[..i])
        invariant eval.it == AfterPart(eval.ev, old(eval.it), part)
      {
        strings := strings + [eval.ev.getString(items[i])];
      }
      assert items[..|items|] == items;
      return Ok("[" + Join(strings, ", ") + "]");
  }

  /** A template: a part that fails reads UNDEFINED and is reported, and the rest is still evaluated. */
  method EvalString<I>(ev: Evaluator<I>, parts: seq<DslPart>) returns (r: Rendered<I>)
    ensures r == Render(ev, parts).0
  {
    var eval := new Eval(ev);
    r := Rendered("", []);
    for i := 0 to |parts|
      invariant eval.ev == ev && (r, eval.it) == Render(ev, parts[..i])
    {
      assert parts[..i + 1][..i] == parts[..i];
      var text := EvalPart(eval, parts[i]);
      match text
      case Ok(s) => r := Rendered(r.text + s, r.errors);
      case Err(e) => r := Rendered(r.text + "UNDEFINED", r.errors + [(parts[i], e)]);
    }
    assert parts[..|parts|] == parts;
  }

  // ---------- When the parts of a template are independent ----------

  predicate ClosedPart(part: DslPart) {
    match part
    case TextPart(_) => true
    case ValuePart(v) => ClosedValue(v)
    case RefPart(c) => ClosedCollection(c)
  }

  lemma ClosedPartIgnoresIt<I>(ev: Evaluator<I>, x: Option<I>, y: Option<I>, part: DslPart)
    requires ClosedPart(part)
    ensures EvPart(ev, x, part) == EvPart(ev, y, part)
  {
    match part
    case TextPart(_) =>
    case ValuePart(v) => ClosedValueIgnoresIt(ev, x, y, v);
    case RefPart(c) =>
      ClosedCollectionIgnoresIt(ev, x, y, c);
      if c.RefSource? { ClosedReferenceIgnoresIt(ev, x, y, c.reference); }
  }

  /** On its own, the part leaves the iterator variable unset. */
  ghost predicate LeavesNothing<I>(ev: Evaluator<I>, part: DslPart) {
    AfterPart(ev, None, part) == None
  }

  /** A part that succeeds, or that has no filter, any or all, leaves nothing behind. */
  lemma QuietPartLeavesNothing<I>(ev: Evaluator<I>, part: DslPart)
    requires EvPart(ev, None, part).Ok? || !IteratesPart(part)
    ensures LeavesNothing(ev, part)
  {
  }

  /** A template leaves nothing behind exactly when none of its parts would on its own. */
  lemma {:induction false} CleanIff<I>(ev: Evaluator<I>, parts: seq<DslPart>)
    ensures Render(ev, parts).1 == None <==> forall j | 0 <= j < |parts| :: LeavesNothing(ev, parts[j])
  {
    if parts != [] {
      var k := |parts| - 1;
      CleanIff(ev, parts[..k]);
      assert forall j | 0 <= j < k :: parts[..k][j] == parts[j];
    }
  }

  /** Every part is closed, or comes after parts that leave nothing behind. */
  ghost predicate NothingLeaks<I>(ev: Evaluator<I>, parts: seq<DslPart>) {
    forall i | 0 <= i < |parts| ::
      ClosedPart(parts[i]) || forall j | 0 <= j < i :: LeavesNothing(ev, parts[j])
  }

  /** Then the template reads as if each part had been evaluated on its own. */
  lemma {:induction false} PartsAreIndependent<I>(ev: Evaluator<I>, parts: seq<DslPart>)
    requires NothingLeaks(ev, parts)
    ensures Render(ev, parts).0 == RenderAlone(ev, parts)
  {
    if parts != [] {
      var k := |parts| - 1;
      PartsAreIndependent(ev, parts[..k]);
      var it := Render(ev, parts[..k]).1;
      if ClosedPart(parts[k]) {
        ClosedPartIgnoresIt(ev, it, None, parts[k]);
      } else {
        CleanIff(ev, parts[..k]);
      }
    }
  }

  /** A part that reads whether the iterator variable is set. */
  const TELLING := ValuePart(BoolValue(IsDefined(IteratorVariable)))

  lemma Tells<I>(ev: Evaluator<I>, it: Option<I>)
    ensures EvPart(ev, it, TELLING) == Ok(if it.Some? then "true" else "false")
  {
    assert EvCondition(ev, it, IsDefined(IteratorVariable)) == Ok(it.Some?);
  }

  /** Whatever comes next reads as if it stood alone. */
  ghost predicate AnyNextReadsAlone<I>(ev: Evaluator<I>, parts: seq<DslPart>) {
    forall next :: Render(ev, parts + [next]).0 == RenderAlone(ev, parts + [next])
  }

  lemma RenderNext<I>(ev: Evaluator<I>, parts: seq<DslPart>, next: DslPart)
    ensures Render(ev, parts + [next]).0 == Append(Render(ev, parts).0, next, EvPart(ev, Render(ev, parts).1, next))
    ensures RenderAlone(ev, parts + [next]) == Append(RenderAlone(ev, parts), next, EvPart(ev, None, next))
  {
    assert (parts + [next])[..|parts|] == parts;
  }

  /** After parts that read as if alone, any next part does too exactly when nothing was left behind. */
  lemma NextIsIndependentIff<I>(ev: Evaluator<I>, parts: seq<DslPart>)
    requires Render(ev, parts).0 == RenderAlone(ev, parts)
    ensures AnyNextReadsAlone(ev, parts) <==> Render(ev, parts).1 == None
  {
    hide Render, RenderAlone, EvPart;
    var it := Render(ev, parts).1;
    if it == None {
      forall next ensures Render(ev, parts + [next]).0 == RenderAlone(ev, parts + [next]) {
        RenderNext(ev, parts, next);
      }
    } else {
      RenderNext(ev, parts, TELLING);
      Tells(ev, it);
      Tells<I>(ev, None);
      SuffixesDiffer(Render(ev, parts).0.text);
      assert Render(ev, parts + [TELLING]).0 != RenderAlone(ev, parts + [TELLING]);
    }
  }

  lemma SuffixesDiffer(s: string)
    ensures s + "true" != s + "false"
  {
    assert |s + "true"| != |s + "false"|;
  }

  /**
   * The parts of a template are independent of each other, whatever comes after
   * any of them, exactly when each part on its own leaves nothing behind.
   */
  lemma {:induction false} IndependentIff<I>(ev: Evaluator<I>, parts: seq<DslPart>)
    ensures (forall k | 0 <= k <= |parts| :: AnyNextReadsAlone(ev, parts[..k])) <==>
            (forall j | 0 <= j < |parts| :: LeavesNothing(ev, parts[j]))
  {
    hide LeavesNothing, AnyNextReadsAlone;
    CleanIff(ev, parts);
    assert parts[..|parts|] == parts;
    if forall j | 0 <= j < |parts| :: LeavesNothing(ev, parts[j]) {
      forall k | 0 <= k <= |parts| ensures AnyNextReadsAlone(ev, parts[..k]) {
        assert forall j | 0 <= j < k :: parts[..k][j] == parts[j];
        CleanIff(ev, parts[..k]);
        PartsAreIndependent(ev, parts[..k]);
        NextIsIndependentIff(ev, parts[..k]);
      }
    } else if forall k | 0 <= k <= |parts| :: AnyNextReadsAlone(ev, parts[..k]) {
      ReadsAloneSoFar(ev, parts);
      NextIsIndependentIff(ev, parts);
      assert false;
    }
  }

  lemma ReadsAloneSoFar<I>(ev: Evaluator<I>, parts: seq<DslPart>)
    requires forall k | 0 <= k <= |parts| :: AnyNextReadsAlone(ev, parts[..k])
    ensures Render(ev, parts).0 == RenderAlone(ev, parts)
  {
    if parts != [] {
      var k := |parts| - 1;
      assert AnyNextReadsAlone(ev, parts[..k]) && parts[..k] + [parts[k]] == parts;
    }
  }

  // ---------- A template whose second part sees the item of its first ----------

  /** A debugged program with one collection, `xs`, holding the single item 7. */
  function OneItem(): Evaluator<int> {
    Evaluator((a, b) => false, (a, b) => false, (a, b) => false,
              name => if name == "xs" then Ok(0) else Err(Undefined),
              (v, i) => Err(Undefined), (v, i) => Err(Undefined),
              v => 0, v => Ok([7]), v => "item", v => "item", v => Err(NotConvertible),
              (v, s) => false, (n, h) => None, n => "", s => None)
  }

  /** `{filter(xs, isEmpty(y))}{@it}` where `y` is undefined. */
  function LeakyTemplate(): seq<DslPart> {
    [RefPart(Filter(RefSource(Base("xs")), IsEmpty(Base("y")))), RefPart(RefSource(IteratorVariable))]
  }

  /**
   * The first part fails inside its iteration. The second part should fail
   * too, as `@it` has no meaning outside an iteration, but it reads the item
   * that the first part left behind.
   */
  lemma {:induction false} ItemLeaks()
    ensures EvPart(OneItem(), None, LeakyTemplate()[1]).Err?
    ensures Render(OneItem(), LeakyTemplate()).0.text == "UNDEFINED" + "item"
    ensures RenderAlone(OneItem(), LeakyTemplate()).text == "UNDEFINED" + "UNDEFINED"
  {
    var ev, parts := OneItem(), LeakyTemplate();
    var first, second := parts[0], parts[1];
    var c := first.collection.condition;
    assert EvUsed(ev, None, Base("xs")) == Ok(0) && EvItems(ev, None, Base("xs")) == Ok([7]);
    assert EvUsed(ev, Some(7), Base("y")).Err?;
    assert EvCondition(ev, Some(7), c).Err?;
    assert AfterReference(ev, Some(7), Base("y")) == Some(7);
    assert AfterCondition(ev, Some(7), c) == Some(7);
    assert EvFilter(ev, [7], c).Err? && AfterFilter(ev, None, [7], c) == Some(7);
    assert EvPart(ev, None, first).Err? && AfterPart(ev, None, first) == Some(7);
    assert parts[..1] == [first] && [first][..0] == [];
    assert Render(ev, [first]) == (Append(Rendered("", []), first, EvPart(ev, None, first)), Some(7));
    assert EvUsed(ev, Some(7), IteratorVariable) == Ok(7);
    assert RenderAlone(ev, [first]).text == "UNDEFINED";
  }
}
