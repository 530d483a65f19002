/**
 * The metric aggregator (dogstatsd/src/aggregator.rs): one entry per context
 * id, aggregated in place on insert and drained by the two consume calls.
 */
module Aggregator {
  import opened Batching
  import opened Tags
  import opened Wrappers

  const MAX_CONTEXTS: nat := 65_536
  const METRIC_LIMITS := Limits(1_000, 5 * 1_024 * 1_024)
  const SKETCH_LIMITS := Limits(1_000, 62 * 1_024 * 1_024)

  /** A distribution is the points its sketch has been given. */
  datatype MetricValue = Count(value: real) | Gauge(value: real) | Distribution(points: multiset<real>) {
    /** get_value, with its default. */
    function ValueOrZero(): real {
      if Distribution? then 0.0 else value
    }

    /** aggregate: the value this entry holds after `other` has been merged into it. */
    function Aggregate(other: MetricValue): MetricValue {
      match this
      case Count(v) => Count(v + other.ValueOrZero())
      case Gauge(_) => Gauge(other.ValueOrZero())
      case Distribution(p) => if other.Distribution? then Distribution(p + other.points) else this
    }

    predicate SameKind(other: MetricValue) {
      (Count? <==> other.Count?) && (Gauge? <==> other.Gauge?)
    }
  }

  datatype Context = Context(name: string, tags: Option<seq<Tag>>)

  datatype Metric = Metric(context: Context, value: MetricValue)

  datatype InsertError = Overflow

  datatype CreationError = Contexts

  /** The hash that gives a context its id. */
  type Hash = Context -> nat

  // ---------- Shipments ----------

  /** What a payload holds for an entry: its name, its value and its printed tags. */
  datatype Shipment = Shipment(name: string, value: MetricValue, tags: seq<string>)

  /** The tags a payload shows for a context: those of the aggregator come first, then its own. */
  function ShownTags(base: seq<Tag>, c: Context): seq<string> {
    Print(if c.tags.Some? then Canonical(base + c.tags.value) else base)
  }

  /** build_metric and build_sketch. */
  function Build(base: seq<Tag>, m: Metric): Shipment {
    Shipment(m.context.name, m.value, ShownTags(base, m.context))
  }

  /** A shipment has the printed form of every tag of the aggregator and of the entry, and no other. */
  lemma BuildHasAllTags(base: seq<Tag>, m: Metric, s: string)
    ensures s in Build(base, m).tags <==>
            exists t :: (t in base || (m.context.tags.Some? && t in m.context.tags.value)) && PrintTag(t) == s
  {
    hide Canonical, PrintTag;
    var tags := if m.context.tags.Some? then base + m.context.tags.value else base;
    var kept := if m.context.tags.Some? then Canonical(tags) else tags;
    CanonicalKeepsTags(tags);
    assert forall t :: t in kept <==> t in tags;
    assert forall i | 0 <= i < |kept| :: Build(base, m).tags[i] == PrintTag(kept[i]);
    if t :| t in tags && PrintTag(t) == s {
      var i :| 0 <= i < |kept| && kept[i] == t;
      assert Build(base, m).tags[i] == s;
    }
  }

  /** The size of a shipment once serialized; zero when that fails. */
  type Size = Shipment -> nat

  function Sized(base: seq<Tag>, size: Size, metrics: seq<Metric>): seq<Item<Shipment>> {
    seq(|metrics|, i requires 0 <= i < |metrics| => Item(Build(base, metrics[i]), size(Build(base, metrics[i]))))
  }

  function Contents(items: seq<Item<Shipment>>): seq<Shipment> {
    seq(|items|, i requires 0 <= i < |items| => items[i].value)
  }

  // ---------- Histories ----------

  /** What has happened: a metric was accepted, or an entry was taken out and shipped, or did not serialize. */
  datatype Event = Accepted(metric: Metric) | Shipped(metric: Metric) | Unserialized(metric: Metric)

  /** What becomes of an entry that is taken out. Distributions are shipped whatever their size. */
  function Fate(base: seq<Tag>, size: Size, m: Metric): Event {
    if m.value.Distribution? || size(Build(base, m)) > 0 then Shipped(m) else Unserialized(m)
  }

  function Fates(base: seq<Tag>, size: Size, metrics: seq<Metric>): seq<Event> {
    seq(|metrics|, i requires 0 <= i < |metrics| => Fate(base, size, metrics[i]))
  }

  lemma FatesMore(base: seq<Tag>, size: Size, metrics: seq<Metric>, entry: Metric)
    ensures Fates(base, size, metrics + [entry]) == Fates(base, size, metrics) + [Fate(base, size, entry)]
  {
  }

  /** What a history has put into payloads, in order. */
  function ShippedIn(base: seq<Tag>, log: seq<Event>): seq<Shipment> {
    if log == [] then []
    else (if log[0].Shipped? then [Build(base, log[0].metric)] else []) + ShippedIn(base, log[1..])
  }

  lemma {:induction false} ShippedAppend(base: seq<Tag>, a: seq<Event>, b: seq<Event>)
    ensures ShippedIn(base, a + b) == ShippedIn(base, a) + ShippedIn(base, b)
  {
    hide Build, ShippedIn;
    if a == [] {
      NoneShipped(base);
      assert a + b == b;
    } else {
      ShippedAppend(base, a[1..], b);
      assert (a + b)[1..] == a[1..] + b;
      ShippedStep(base, a);
      ShippedStep(base, a + b);
    }
  }

  /** The payload entry of an event that shipped something has the name and the value that was taken out. */
  lemma {:induction false} ShipmentAt(base: seq<Tag>, log: seq<Event>, i: nat) returns (k: nat)
    requires i < |log| && log[i].Shipped?
    ensures k == |ShippedIn(base, log[..i])| < |ShippedIn(base, log)|
    ensures ShippedIn(base, log)[k].name == log[i].metric.context.name
    ensures ShippedIn(base, log)[k].value == log[i].metric.value
  {
    hide ShownTags;
    k := |ShippedIn(base, log[..i])|;
    ShippedAppend(base, log[..i], log[i..]);
    assert log == log[..i] + log[i..];
  }

  /** The shipments of counts and gauges are those that serialize. */
  lemma {:induction false} SerializedIsShipped(base: seq<Tag>, size: Size, metrics: seq<Metric>)
    requires forall m | m in metrics :: !m.value.Distribution?
    ensures Contents(Serialized(Sized(base, size, metrics))) == ShippedIn(base, Fates(base, size, metrics))
  {
    hide Build, Serialized, ShippedIn, Sized, Fates, Contents;
    if metrics == [] {
      assert Sized(base, size, []) == [] && Fates(base, size, []) == [] && Contents([]) == [] by {
        NothingToShip(base, size);
      }
      NoneSerialized<Shipment>();
      NoneShipped(base);
    } else {
      var m, rest := metrics[0], metrics[1..];
      assert m in metrics;
      SerializedIsShipped(base, size, rest);
      var item, items, events := Item(Build(base, m), size(Build(base, m))), Sized(base, size, rest), Fates(base, size, rest);
      MapsStep(base, size, m, rest);
      assert metrics == [m] + rest && ([item] + items)[0..] == [item] + items && ([item] + items)[1..] == items;
      assert ([Fate(base, size, m)] + events)[1..] == events;
      SerializedStep([item] + items, 0);
      ShippedStep(base, [Fate(base, size, m)] + events);
      ContentsStep(item, Serialized(items));
    }
  }

  lemma NothingToShip(base: seq<Tag>, size: Size)
    ensures Sized(base, size, []) == [] && Fates(base, size, []) == [] && Contents([]) == []
  {
  }

  lemma MapsStep(base: seq<Tag>, size: Size, m: Metric, rest: seq<Metric>)
    ensures Sized(base, size, [m] + rest) == [Item(Build(base, m), size(Build(base, m)))] + Sized(base, size, rest)
    ensures Fates(base, size, [m] + rest) == [Fate(base, size, m)] + Fates(base, size, rest)
  {
    hide Build, Fate;
  }

  lemma NoneShipped(base: seq<Tag>)
    ensures ShippedIn(base, []) == []
  {
  }

  lemma ShippedStep(base: seq<Tag>, log: seq<Event>)
    requires log != []
    ensures ShippedIn(base, log) ==
            if log[0].Shipped? then [Build(base, log[0].metric)] + ShippedIn(base, log[1..]) else ShippedIn(base, log[1..])
  {
  }

  lemma ContentsStep(item: Item<Shipment>, items: seq<Item<Shipment>>)
    ensures Contents([item] + items) == [item.value] + Contents(items)
  {
  }

  /** The shipments of distributions are all of them. */
  lemma {:induction false} SketchesAreShipped(base: seq<Tag>, size: Size, metrics: seq<Metric>)
    requires forall m | m in metrics :: m.value.Distribution?
    ensures Contents(Sized(base, size, metrics)) == ShippedIn(base, Fates(base, size, metrics))
  {
    hide Build;
    if metrics != [] {
      var rest := metrics[1..];
      assert metrics[0] in metrics;
      SketchesAreShipped(base, size, rest);
      assert Sized(base, size, metrics)[1..] == Sized(base, size, rest);
      assert Fates(base, size, metrics)[1..] == Fates(base, size, rest);
    }
  }

  /** What the table holds for an id after one more event of that id. */
  function Updated(before: Option<Metric>, last: Event): Option<Metric> {
    if !last.Accepted? then None
    else if before.None? then Some(last.metric)
    else Some(before.value.(value := before.value.value.Aggregate(last.metric.value)))
  }

  /** The entry for an id after a history. */
  function Resident(hash: Hash, log: seq<Event>, id: nat): (r: Option<Metric>)
    ensures r.Some? ==> hash(r.value.context) == id
  {
    if log == [] then None
    else
      var (before, last) := (Resident(hash, log[..|log| - 1], id), log[|log| - 1]);
      if hash(last.metric.context) != id then before else Updated(before, last)
  }

  /** Entries are taken out as they are. */
  ghost predicate DrainsResidents(hash: Hash, log: seq<Event>) {
    log != [] ==>
      var (earlier, last) := (log[..|log| - 1], log[|log| - 1]);
      && DrainsResidents(hash, earlier)
      && (!last.Accepted? ==> Resident(hash, earlier, hash(last.metric.context)) == Some(last.metric))
  }

  class Aggregator {
    const hash: Hash
    const maxContext: nat
    const tags: seq<Tag>
    var entries: map<nat, Metric>
    ghost var log: seq<Event>
    /** Everything the payloads of all consume calls have held, in order. */
    ghost var payloaded: seq<Shipment>

    /** The payloads have held what the history says was shipped. */
    ghost predicate Valid()
      reads this
    {
      Consistent() && payloaded == ShippedIn(tags, log)
    }

    /** The table is what the history says, and it is within the bound. */
    ghost predicate Consistent()
      reads this`entries, this`log
    {
      && |entries| <= maxContext <= MAX_CONTEXTS
      && DrainsResidents(hash, log)
      && forall id :: Resident(hash, log, id) == if id in entries then Some(entries[id]) else None
    }

    constructor (hash: Hash, tags: seq<Tag>, maxContext: nat)
      requires maxContext <= MAX_CONTEXTS
      ensures Valid() && entries == map[] && log == [] && payloaded == []
      ensures this.hash == hash && this.tags == tags && this.maxContext == maxContext
    {
      this.hash, this.tags, this.maxContext := hash, tags, maxContext;
      entries, log, payloaded := map[], [], [];
    }

    /** A new context is refused exactly when the table is full; a known one never is. */
    method Insert(metric: Metric) returns (r: Result<(), InsertError>)
      requires Valid()
      modifies this`entries, this`log
      ensures Valid()
      ensures r.Err? <==> hash(metric.context) !in old(entries) && |old(entries)| >= maxContext
      ensures r.Err? ==> entries == old(entries) && log == old(log)
      ensures r.Ok? ==> log == old(log) + [Accepted(metric)]
    {
      var id := hash(metric.context);
      if id !in entries {
        if |entries| >= maxContext {
          return Err(Overflow);
        }
        entries := entries[id := metric];
      } else {
        var entry := entries[id];
        entries := entries[id := entry.(value := entry.value.Aggregate(metric.value))];
      }
      log := log + [Accepted(metric)];
      assert log[..|log| - 1] == old(log);
      ShippedAppend(tags, old(log), [Accepted(metric)]);
      return Ok(());
    }

    /**
     * extract_if: takes out the distributions, or everything else, in the
     * table's own order. `size` is used only to say what will become of them.
     */
    method Extract(distributions: bool, ghost size: Size) returns (drained: seq<Metric>)
      requires Consistent()
      modifies this`entries, this`log
      ensures Consistent() && log == old(log) + Fates(tags, size, drained)
      ensures forall id :: id in entries <==>
                           id in old(entries) && old(entries)[id].value.Distribution? != distributions
      ensures forall id | id in entries :: entries[id] == old(entries)[id]
      ensures forall m | m in drained :: m.value.Distribution? == distributions
    {
      hide Consistent, Fates;
      drained := [];
      var todo := set id | id in entries && entries[id].value.Distribution? == distributions;
      NothingToShip(tags, size);
      while todo != {}
        invariant Consistent() && log == old(log) + Fates(tags, size, drained)
        invariant todo <= entries.Keys <= old(entries).Keys
        invariant forall id | id in entries :: entries[id] == old(entries)[id]
        invariant forall id | id in old(entries) ::
                    id in entries <==> id in todo || old(entries)[id].value.Distribution? != distributions
        invariant forall id | id in todo :: entries[id].value.Distribution? == distributions
        invariant forall m | m in drained :: m.value.Distribution? == distributions
        decreases |todo|
      {
        var id :| id in todo;
        var entry := entries[id];
        Remove(id, size);
        FatesMore(tags, size, drained, entry);
        drained, todo := drained + [entry], todo - {id};
      }
    }

    method Remove(id: nat, ghost size: Size)
      requires Consistent() && id in entries
      modifies this`entries, this`log
      ensures Consistent() && entries == old(entries) - {id} && log == old(log) + [Fate(tags, size, old(entries)[id])]
    {
      log := log + [Fate(tags, size, entries[id])];
      assert log[..|log| - 1] == old(log);
      assert Resident(hash, old(log), id) == Some(entries[id]);
      entries := entries - {id};
      assert |entries| < |old(entries)| by {
        assert old(entries).Keys == entries.Keys + {id};
      }
    }

    /**
     * consume_metrics: counts and gauges leave the table; the payloads hold, in
     * order and in as few payloads as the limits allow, exactly the shipments
     * that the history records as shipped.
     */
    method ConsumeMetrics(size: Size) returns (drained: seq<Metric>, payloads: seq<seq<Item<Shipment>>>)
      requires Valid()
      modifies this
      ensures Valid() && log == old(log) + Fates(tags, size, drained)
      ensures forall id :: id in entries <==> id in old(entries) && old(entries)[id].value.Distribution?
      ensures forall id | id in entries :: entries[id] == old(entries)[id]
      ensures Contents(Concat(payloads)) == ShippedIn(tags, Fates(tags, size, drained))
      ensures payloaded == old(payloaded) + Contents(Concat(payloads))
      ensures IsLeastPartition(METRIC_LIMITS, payloads, Serialized(Sized(tags, size, drained)))
    {
      hide Consistent, IsLeastPartition, ShippedIn, Fates;
      drained := Extract(false, size);
      payloads := BatchSerialized(METRIC_LIMITS, Sized(tags, size, drained));
      LeastIsPartition(METRIC_LIMITS, payloads, Serialized(Sized(tags, size, drained)));
      SerializedIsShipped(tags, size, drained);
      ShippedAppend(tags, old(log), Fates(tags, size, drained));
      payloaded := payloaded + Contents(Concat(payloads));
    }

    /** consume_distributions: distributions leave the table, and all of them are in the payloads. */
    method ConsumeDistributions(size: Size) returns (drained: seq<Metric>, payloads: seq<seq<Item<Shipment>>>)
      requires Valid()
      modifies this
      ensures Valid() && log == old(log) + Fates(tags, size, drained)
      ensures forall id :: id in entries <==> id in old(entries) && !old(entries)[id].value.Distribution?
      ensures forall id | id in entries :: entries[id] == old(entries)[id]
      ensures Contents(Concat(payloads)) == ShippedIn(tags, Fates(tags, size, drained))
      ensures payloaded == old(payloaded) + Contents(Concat(payloads))
      ensures Positive(Sized(tags, size, drained)) ==>
                IsLeastPartition(SKETCH_LIMITS, payloads, Sized(tags, size, drained))
    {
      hide Consistent, IsLeastPartition, ShippedIn, Fates;
      drained := Extract(true, size);
      payloads := Batch(SKETCH_LIMITS, Sized(tags, size, drained));
      SketchesAreShipped(tags, size, drained);
      ShippedAppend(tags, old(log), Fates(tags, size, drained));
      payloaded := payloaded + Contents(Concat(payloads));
    }
  }

  /** new: refused exactly when the bound on contexts is above the fixed maximum. */
  method New(hash: Hash, tags: seq<Tag>, maxContext: nat) returns (r: Result<Aggregator, CreationError>)
    ensures r.Err? <==> maxContext > MAX_CONTEXTS
    ensures r.Ok? ==> fresh(r.value) && r.value.Valid() && r.value.log == [] && r.value.payloaded == []
    ensures r.Ok? ==> r.value.hash == hash && r.value.tags == tags && r.value.maxContext == maxContext
  {
    if maxContext > MAX_CONTEXTS {
      return Err(Contexts);
    }
    var a := new Aggregator(hash, tags, maxContext);
    return Ok(a);
  }

  // ---------- What every history conserves ----------

  /** What a value adds to the totals of its context: a count's amount, a distribution's points. */
  datatype Total = Total(amount: real, points: multiset<real>) {
    function Plus(other: Total): Total {
      Total(amount + other.amount, points + other.points)
    }
  }

  const NOTHING := Total(0.0, multiset{})

  lemma PlusLaws(a: Total, b: Total, c: Total)
    ensures a.Plus(b).Plus(c) == a.Plus(b.Plus(c)) && a.Plus(b).Plus(NOTHING) == a.Plus(b)
    ensures a.Plus(NOTHING) == a
  {
  }

  function TotalOf(v: MetricValue): Total {
    match v
    case Count(x) => Total(x, multiset{})
    case Gauge(_) => NOTHING
    case Distribution(p) => Total(0.0, p)
  }

  /** The part of a history that a total is taken over. */
  datatype Part = AcceptedPart | ShippedPart | UnserializedPart {
    predicate Has(e: Event) {
      match this
      case AcceptedPart => e.Accepted?
      case ShippedPart => e.Shipped?
      case UnserializedPart => e.Unserialized?
    }
  }

  /** What a part of a history adds up to for an id. */
  function LoggedTotal(part: Part, hash: Hash, log: seq<Event>, id: nat): Total {
    if log == [] then NOTHING
    else
      var (before, last) := (LoggedTotal(part, hash, log[..|log| - 1], id), log[|log| - 1]);
      if part.Has(last) && hash(last.metric.context) == id then before.Plus(TotalOf(last.metric.value)) else before
  }

  function ResidentTotal(resident: Option<Metric>): Total {
    if resident.None? then NOTHING else TotalOf(resident.value.value)
  }

  /** Everything accepted for an id is of one kind. */
  ghost predicate OneKind(hash: Hash, log: seq<Event>, id: nat, kind: MetricValue) {
    forall e | e in log :: e.Accepted? && hash(e.metric.context) == id ==> e.metric.value.SameKind(kind)
  }

  lemma {:induction false} ResidentIsOfKind(hash: Hash, log: seq<Event>, id: nat, kind: MetricValue)
    requires OneKind(hash, log, id, kind)
    ensures var r := Resident(hash, log, id); r.Some? ==> r.value.value.SameKind(kind)
  {
    if log != [] {
      var earlier := log[..|log| - 1];
      assert log[|log| - 1] in log && forall e | e in earlier :: e in log;
      ResidentIsOfKind(hash, earlier, id, kind);
    }
  }

  lemma UpdateConserves(before: Option<Metric>, last: Event)
    requires last.Accepted? && (before.Some? ==> before.value.value.SameKind(last.metric.value))
    ensures ResidentTotal(Updated(before, last)) == ResidentTotal(before).Plus(TotalOf(last.metric.value))
  {
  }

  /**
   * Conservation: after any history, what was shipped for an id, what did not
   * serialize and what is still in the table are what was accepted for it.
   */
  lemma {:induction false} NothingLostOrInvented(hash: Hash, log: seq<Event>, id: nat, kind: MetricValue)
    requires DrainsResidents(hash, log) && OneKind(hash, log, id, kind)
    ensures LoggedTotal(AcceptedPart, hash, log, id) ==
            LoggedTotal(ShippedPart, hash, log, id)
            .Plus(LoggedTotal(UnserializedPart, hash, log, id))
            .Plus(ResidentTotal(Resident(hash, log, id)))
  {
    hide Total.Plus, TotalOf, MetricValue.Aggregate;
    PlusLaws(NOTHING, NOTHING, NOTHING);
    if log != [] {
      var earlier, last := log[..|log| - 1], log[|log| - 1];
      assert last in log && forall e | e in earlier :: e in log;
      NothingLostOrInvented(hash, earlier, id, kind);
      ResidentIsOfKind(hash, earlier, id, kind);
      if hash(last.metric.context) == id {
        var before := Resident(hash, earlier, id);
        assert Resident(hash, log, id) == Updated(before, last);
        var s, u, r := LoggedTotal(ShippedPart, hash, earlier, id), LoggedTotal(UnserializedPart, hash, earlier, id),
                       ResidentTotal(before);
        if last.Accepted? {
          UpdateConserves(before, last);
          PlusLaws(s.Plus(u), r, TotalOf(last.metric.value));
        } else {
          PlusLaws(s, u, r);
          PlusSwaps(s, u, r);
        }
      }
    }
  }

  lemma PlusSwaps(a: Total, b: Total, c: Total)
    ensures a.Plus(b).Plus(c) == a.Plus(c).Plus(b) && a.Plus(c).Plus(b).Plus(NOTHING) == a.Plus(c).Plus(b)
    ensures a.Plus(b.Plus(c)).Plus(NOTHING) == a.Plus(b.Plus(c))
  {
  }

  ghost predicate AllSerialized(log: seq<Event>) {
    forall e | e in log :: !e.Unserialized?
  }

  lemma {:induction false} NothingUnserialized(hash: Hash, log: seq<Event>, id: nat)
    requires AllSerialized(log)
    ensures LoggedTotal(UnserializedPart, hash, log, id) == NOTHING
  {
    if log != [] {
      var earlier := log[..|log| - 1];
      assert log[|log| - 1] in log && forall e | e in earlier :: e in log;
      NothingUnserialized(hash, earlier, id);
    }
  }

  /** When everything serializes, what was shipped and what is resident are what was accepted. */
  lemma ShippedPlusResident(hash: Hash, log: seq<Event>, id: nat, kind: MetricValue)
    requires DrainsResidents(hash, log) && OneKind(hash, log, id, kind) && AllSerialized(log)
    ensures LoggedTotal(AcceptedPart, hash, log, id) ==
            LoggedTotal(ShippedPart, hash, log, id).Plus(ResidentTotal(Resident(hash, log, id)))
  {
    hide Total.Plus, LoggedTotal, ResidentTotal, Resident;
    NothingLostOrInvented(hash, log, id, kind);
    NothingUnserialized(hash, log, id);
    PlusLaws(LoggedTotal(ShippedPart, hash, log, id), NOTHING, NOTHING);
  }

  /** A consume whose shipments all have a size ships everything it takes out. */
  lemma PositiveSizesShip(base: seq<Tag>, size: Size, metrics: seq<Metric>)
    requires Positive(Sized(base, size, metrics))
    ensures AllSerialized(Fates(base, size, metrics))
  {
    var events, items := Fates(base, size, metrics), Sized(base, size, metrics);
    hide Build;
    forall e | e in events ensures !e.Unserialized? {
      var i :| 0 <= i < |events| && events[i] == e;
      assert 0 < items[i].size;
    }
  }

  // ---------- Contexts ----------

  /** No other context of the history has the id of `c`. */
  ghost predicate CollisionFree(hash: Hash, log: seq<Event>, c: Context) {
    forall e | e in log :: hash(e.metric.context) == hash(c) ==> e.metric.context == c
  }

  /** What a part of a history adds up to for a context. */
  function ContextTotal(part: Part, log: seq<Event>, c: Context): Total {
    if log == [] then NOTHING
    else
      var (before, last) := (ContextTotal(part, log[..|log| - 1], c), log[|log| - 1]);
      if part.Has(last) && last.metric.context == c then before.Plus(TotalOf(last.metric.value)) else before
  }

  lemma {:induction false} ContextTotalIsById(part: Part, hash: Hash, log: seq<Event>, c: Context)
    requires CollisionFree(hash, log, c)
    ensures ContextTotal(part, log, c) == LoggedTotal(part, hash, log, hash(c))
  {
    hide Total.Plus, TotalOf;
    if log != [] {
      var earlier := log[..|log| - 1];
      assert log[|log| - 1] in log && forall e | e in earlier :: e in log;
      ContextTotalIsById(part, hash, earlier, c);
    }
  }

  /** Per context, as long as no other context of the history shares its id. */
  lemma ContextIsConserved(hash: Hash, log: seq<Event>, c: Context, kind: MetricValue)
    requires DrainsResidents(hash, log) && CollisionFree(hash, log, c) && AllSerialized(log)
    requires forall e | e in log :: e.Accepted? && e.metric.context == c ==> e.metric.value.SameKind(kind)
    ensures ContextTotal(AcceptedPart, log, c) ==
            ContextTotal(ShippedPart, log, c).Plus(ResidentTotal(Resident(hash, log, hash(c))))
  {
    ShippedPlusResident(hash, log, hash(c), kind);
    ContextTotalIsById(AcceptedPart, hash, log, c);
    ContextTotalIsById(ShippedPart, hash, log, c);
  }

  // ---------- Payloads ----------

  /** What the payload entries with a name and tags add up to. */
  function PayloadTotal(shipments: seq<Shipment>, name: string, tags: seq<string>): Total {
    if shipments == [] then NOTHING
    else
      var (before, last) := (PayloadTotal(shipments[..|shipments| - 1], name, tags), shipments[|shipments| - 1]);
      if last.name == name && last.tags == tags then before.Plus(TotalOf(last.value)) else before
  }

  /** No other context of the history is shown with the name and the tags of `c`. */
  ghost predicate LooksUnique(base: seq<Tag>, log: seq<Event>, c: Context) {
    forall e | e in log ::
      e.metric.context.name == c.name && ShownTags(base, e.metric.context) == ShownTags(base, c) ==> e.metric.context == c
  }

  /** The payload entries that look like a context add up to what was shipped for it. */
  lemma {:induction false} PayloadsHoldShipped(base: seq<Tag>, log: seq<Event>, c: Context)
    requires LooksUnique(base, log, c)
    ensures PayloadTotal(ShippedIn(base, log), c.name, ShownTags(base, c)) == ContextTotal(ShippedPart, log, c)
  {
    hide Total.Plus, TotalOf, ShownTags;
    if log != [] {
      var earlier, last := log[..|log| - 1], log[|log| - 1];
      assert log == earlier + [last] && last in log && forall e | e in earlier :: e in log;
      PayloadsHoldShipped(base, earlier, c);
      ShippedAppend(base, earlier, [last]);
      var before := ShippedIn(base, earlier);
      if last.Shipped? {
        assert ShippedIn(base, [last]) == [Build(base, last.metric)];
        assert (before + [Build(base, last.metric)])[..|before|] == before;
      } else {
        assert ShippedIn(base, [last]) == [] && before + [] == before;
      }
    }
  }

  /**
   * Conservation at the payloads: for a context that shares neither its id nor
   * its looks, the payload entries and the table hold what was accepted.
   */
  lemma PayloadsConserve(base: seq<Tag>, hash: Hash, log: seq<Event>, c: Context, kind: MetricValue)
    requires DrainsResidents(hash, log) && CollisionFree(hash, log, c) && LooksUnique(base, log, c) && AllSerialized(log)
    requires forall e | e in log :: e.Accepted? && e.metric.context == c ==> e.metric.value.SameKind(kind)
    ensures ContextTotal(AcceptedPart, log, c) ==
            PayloadTotal(ShippedIn(base, log), c.name, ShownTags(base, c)).Plus(ResidentTotal(Resident(hash, log, hash(c))))
  {
    ContextIsConserved(hash, log, c, kind);
    PayloadsHoldShipped(base, log, c);
  }

  // ---------- Gauges ----------

  /** The value last accepted for an id since its entry was last taken out. */
  function LastAccepted(hash: Hash, log: seq<Event>, id: nat): Option<MetricValue> {
    if log == [] then None
    else
      var last := log[|log| - 1];
      if hash(last.metric.context) != id then LastAccepted(hash, log[..|log| - 1], id)
      else if last.Accepted? then Some(last.metric.value)
      else None
  }

  function ValueOf(entry: Option<Metric>): Option<MetricValue> {
    if entry.None? then None else Some(entry.value.value)
  }

  /** A gauge in the table reads as the last one accepted since its last consume. */
  lemma {:induction false} GaugeIsLastAccepted(hash: Hash, log: seq<Event>, id: nat)
    requires OneKind(hash, log, id, Gauge(0.0))
    ensures ValueOf(Resident(hash, log, id)) == LastAccepted(hash, log, id)
  {
    if log != [] {
      var earlier, last := log[..|log| - 1], log[|log| - 1];
      assert last in log && forall e | e in earlier :: e in log;
      GaugeIsLastAccepted(hash, earlier, id);
      ResidentIsOfKind(hash, earlier, id, Gauge(0.0));
    }
  }

  lemma {:induction false} DrainedGaugeIsLastAccepted(hash: Hash, log: seq<Event>, id: nat, i: nat)
    requires DrainsResidents(hash, log) && OneKind(hash, log, id, Gauge(0.0))
    requires i < |log| && log[i].Shipped? && hash(log[i].metric.context) == id
    ensures LastAccepted(hash, log[..i], id) == Some(log[i].metric.value)
    decreases |log|
  {
    var earlier := log[..|log| - 1];
    assert forall e | e in earlier :: e in log;
    if i < |earlier| {
      DrainedGaugeIsLastAccepted(hash, earlier, id, i);
      assert earlier[..i] == log[..i];
    } else {
      GaugeIsLastAccepted(hash, earlier, id);
      assert earlier == log[..i];
    }
  }

  /** The value a payload shows for a gauge is the last one accepted before it was taken out. */
  lemma ShippedGaugeIsLastAccepted(base: seq<Tag>, hash: Hash, log: seq<Event>, id: nat, i: nat) returns (k: nat)
    requires DrainsResidents(hash, log) && OneKind(hash, log, id, Gauge(0.0))
    requires i < |log| && log[i].Shipped? && hash(log[i].metric.context) == id
    ensures k == |ShippedIn(base, log[..i])| < |ShippedIn(base, log)|
    ensures LastAccepted(hash, log[..i], id) == Some(ShippedIn(base, log)[k].value) == Some(log[i].metric.value)
  {
    hide ShippedIn, LastAccepted, DrainsResidents;
    DrainedGaugeIsLastAccepted(hash, log, id, i);
    k := ShipmentAt(base, log, i);
  }
}
