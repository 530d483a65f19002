/**
 * Tag lists of metrics (dogstatsd/src/metric.rs): read from text, freed of
 * adjacent repeats, then sorted, so that a context does not depend on the
 * order in which a client sends its tags.
 */
module Tags {
  import opened Texts
  import opened Wrappers

  const MAX_TAGS: nat := 32

  datatype Tag = Tag(key: string, value: string)

  const BLANK := Tag("", "")

  datatype ParseError = TooManyTags

  // ---------- One tag ----------

  function ReadTag(part: string): Tag {
    match SplitOnce(part, ':')
    case None => Tag(part, "")
    case Some((k, v)) => Tag(k, v)
  }

  function PrintTag(t: Tag): string {
    if t.value == "" then t.key else t.key + ":" + t.value
  }

  /** A tag that text can express. */
  predicate Readable(t: Tag) {
    ':' !in t.key && ',' !in t.key && ',' !in t.value
  }

  lemma ReadIsReadable(part: string)
    requires ',' !in part
    ensures Readable(ReadTag(part))
  {
    var parsed := SplitOnce(part, ':');
    if parsed.Some? {
      assert forall c | c in parsed.value.0 || c in parsed.value.1 :: c in part;
    }
  }

  lemma ReadPrint(t: Tag)
    requires Readable(t)
    ensures ReadTag(PrintTag(t)) == t && ',' !in PrintTag(t)
    ensures PrintTag(t) == "" <==> t == BLANK
  {
    if t.value != "" {
      SplitOnceAt(t.key, t.value, ':');
    }
  }

  // ---------- A list of tags ----------

  /** The tags of the parts that are not empty. */
  function ReadParts(parts: seq<string>): seq<Tag> {
    if parts == [] then []
    else (if parts[0] == "" then [] else [ReadTag(parts[0])]) + ReadParts(parts[1..])
  }

  lemma ReadPartsStep(parts: seq<string>, i: nat)
    requires i < |parts|
    ensures ReadParts(parts[i..]) == (if parts[i] == "" then [] else [ReadTag(parts[i])]) + ReadParts(parts[i + 1..])
  {
    assert parts[i..][1..] == parts[i + 1..];
  }

  lemma ReadPartsEnd(parts: seq<string>)
    ensures ReadParts(parts[|parts|..]) == []
  {
  }

  function Read(section: string): seq<Tag> {
    ReadParts(Split(section, ','))
  }

  function Print(tags: seq<Tag>): seq<string> {
    seq(|tags|, i requires 0 <= i < |tags| => PrintTag(tags[i]))
  }

  function WithoutBlank(tags: seq<Tag>): (r: seq<Tag>)
    ensures BLANK !in r && forall t :: t in r <==> t in tags && t != BLANK
    ensures BLANK !in tags ==> r == tags
    ensures |r| <= |tags|
  {
    if tags == [] then []
    else (if tags[0] == BLANK then [] else [tags[0]]) + WithoutBlank(tags[1..])
  }

  lemma {:induction false} ReadAreReadable(parts: seq<string>)
    requires forall i | 0 <= i < |parts| :: ',' !in parts[i]
    ensures forall t | t in ReadParts(parts) :: Readable(t)
  {
    if parts != [] {
      ReadIsReadable(parts[0]);
      ReadAreReadable(parts[1..]);
    }
  }

  lemma {:induction false} ReadPartsPrint(tags: seq<Tag>)
    requires forall t | t in tags :: Readable(t)
    ensures ReadParts(Print(tags)) == WithoutBlank(tags)
    ensures forall i | 0 <= i < |tags| :: ',' !in Print(tags)[i]
  {
    if tags != [] {
      ReadPrint(tags[0]);
      ReadPartsPrint(tags[1..]);
      assert Print(tags)[1..] == Print(tags[1..]);
      assert forall i | 1 <= i < |tags| :: Print(tags)[i] == Print(tags[1..])[i - 1];
    }
  }

  /** Reading what was printed gives every tag back except the wholly empty one. */
  lemma ReadPrinted(tags: seq<Tag>)
    requires forall t | t in tags :: Readable(t)
    ensures Read(Join(Print(tags), ",")) == WithoutBlank(tags)
  {
    ReadPartsPrint(tags);
    if tags != [] {
      SplitJoin(Print(tags), ',');
    } else {
      assert Split("", ',') == [""];
    }
  }

  // ---------- The order of tags ----------

  predicate TextBelow(a: string, b: string) {
    a == [] || (b != [] && (a[0] < b[0] || (a[0] == b[0] && TextBelow(a[1..], b[1..]))))
  }

  /** Texts are ordered by the first place where they differ, the end of a text coming before every character. */
  lemma {:induction false} TextBelowIff(a: string, b: string, k: nat)
    requires k <= |a| && k <= |b| && a[..k] == b[..k] && (k < |a| && k < |b| ==> a[k] != b[k])
    ensures TextBelow(a, b) <==> k == |a| || (k < |b| && a[k] < b[k])
  {
    if k > 0 {
      assert a[..k][0] == a[0] && b[..k][0] == b[0];
      assert a[1..][..k - 1] == a[..k][1..] && b[1..][..k - 1] == b[..k][1..];
      TextBelowIff(a[1..], b[1..], k - 1);
    }
  }

  predicate Below(a: Tag, b: Tag) {
    if a.key == b.key then TextBelow(a.value, b.value) else TextBelow(a.key, b.key)
  }

  /** Tags are ordered by key; the value counts only between equal keys. */
  lemma KeyComesFirst(a: Tag, b: Tag)
    ensures a.key != b.key ==> (Below(a, b) <==> TextBelow(a.key, b.key))
    ensures Below(Tag(a.key, a.value), Tag(a.key, b.value)) <==> TextBelow(a.value, b.value)
  {
  }

  lemma {:induction false} TextOrder(a: string, b: string)
    ensures TextBelow(a, b) || TextBelow(b, a)
    ensures TextBelow(a, b) && TextBelow(b, a) ==> a == b
  {
    if a != [] && b != [] {
      TextOrder(a[1..], b[1..]);
      assert a == [a[0]] + a[1..] && b == [b[0]] + b[1..];
    }
  }

  lemma {:induction false} TextBelowChain(a: string, b: string, c: string)
    requires TextBelow(a, b) && TextBelow(b, c)
    ensures TextBelow(a, c)
  {
    if a != [] && a[0] == b[0] == c[0] {
      TextBelowChain(a[1..], b[1..], c[1..]);
    }
  }

  lemma Order(a: Tag, b: Tag)
    ensures Below(a, b) || Below(b, a)
    ensures Below(a, b) && Below(b, a) ==> a == b
  {
    TextOrder(a.key, b.key);
    TextOrder(a.value, b.value);
  }

  lemma BelowChain(a: Tag, b: Tag, c: Tag)
    requires Below(a, b) && Below(b, c)
    ensures Below(a, c)
  {
    TextOrder(a.key, b.key);
    if a.key == b.key == c.key {
      TextBelowChain(a.value, b.value, c.value);
    } else if a.key != b.key && b.key != c.key {
      TextBelowChain(a.key, b.key, c.key);
    }
  }

  predicate Sorted(tags: seq<Tag>) {
    forall i, j | 0 <= i < j < |tags| :: Below(tags[i], tags[j])
  }

  function InsertSorted(tags: seq<Tag>, t: Tag): seq<Tag> {
    if tags == [] || Below(t, tags[0]) then [t] + tags
    else [tags[0]] + InsertSorted(tags[1..], t)
  }

  /** The sorted list of the same tags; see SortedIsUnique. */
  function Sort(tags: seq<Tag>): seq<Tag> {
    if tags == [] then [] else InsertSorted(Sort(tags[1..]), tags[0])
  }

  lemma {:induction false} InsertSortedSorts(tags: seq<Tag>, t: Tag)
    requires Sorted(tags)
    ensures Sorted(InsertSorted(tags, t))
    ensures multiset(InsertSorted(tags, t)) == multiset(tags) + multiset{t}
  {
    hide Below;
    if tags != [] {
      Order(t, tags[0]);
      assert tags == [tags[0]] + tags[1..];
      if Below(t, tags[0]) {
        forall j | 0 <= j < |tags| ensures Below(t, tags[j]) {
          if j > 0 {
            BelowChain(t, tags[0], tags[j]);
          }
        }
      } else {
        var rest := InsertSorted(tags[1..], t);
        InsertSortedSorts(tags[1..], t);
        forall j | 0 <= j < |rest| ensures Below(tags[0], rest[j]) {
          assert rest[j] in multiset(tags[1..]) + multiset{t};
        }
      }
    }
  }

  lemma {:induction false} SortSorts(tags: seq<Tag>)
    ensures Sorted(Sort(tags)) && multiset(Sort(tags)) == multiset(tags)
  {
    if tags != [] {
      SortSorts(tags[1..]);
      InsertSortedSorts(Sort(tags[1..]), tags[0]);
      assert tags == [tags[0]] + tags[1..];
    }
  }

  lemma SameHead(a: seq<Tag>, b: seq<Tag>)
    requires Sorted(a) && Sorted(b) && multiset(a) == multiset(b) && a != [] && b != []
    ensures a[0] == b[0]
  {
    assert a[0] in multiset(b) && b[0] in multiset(a);
    Order(a[0], b[0]);
  }

  lemma TailCollection(tags: seq<Tag>)
    requires tags != []
    ensures multiset(tags[1..]) == multiset(tags) - multiset{tags[0]}
  {
    assert tags == [tags[0]] + tags[1..];
  }

  /** A collection of tags has one sorted list. */
  lemma {:induction false} SortedIsUnique(a: seq<Tag>, b: seq<Tag>)
    requires Sorted(a) && Sorted(b) && multiset(a) == multiset(b)
    ensures a == b
  {
    hide Below;
    assert |a| == |multiset(a)| == |b|;
    if a != [] {
      SameHead(a, b);
      TailCollection(a);
      TailCollection(b);
      SortedIsUnique(a[1..], b[1..]);
      assert a == [a[0]] + a[1..] && b == [b[0]] + b[1..];
    }
  }

  // ---------- Repeats ----------

  /** dedup: drops a tag that equals its neighbour. */
  function Dedup(tags: seq<Tag>): (r: seq<Tag>)
    ensures forall t :: t in r <==> t in tags
    ensures |r| <= |tags|
  {
    if |tags| < 2 then tags
    else if tags[0] == tags[1] then Dedup(tags[1..])
    else [tags[0]] + Dedup(tags[1..])
  }

  /** No tag occurs twice. */
  ghost predicate NoRepeats(tags: seq<Tag>) {
    forall t :: multiset(tags)[t] <= 1
  }

  /** Equal tags stand next to each other. */
  predicate Contiguous(tags: seq<Tag>) {
    forall i, j, k | 0 <= i < j < k < |tags| :: tags[i] == tags[k] ==> tags[j] == tags[i]
  }

  lemma ContiguousStep(tags: seq<Tag>)
    requires |tags| >= 2
    ensures Contiguous(tags) <==> Contiguous(tags[1..]) && (tags[0] == tags[1] || tags[0] !in tags[1..])
  {
    var rest := tags[1..];
    assert forall i | 0 <= i < |rest| :: rest[i] == tags[i + 1];
    if Contiguous(tags) {
      forall i, j, k | 0 <= i < j < k < |rest| ensures rest[i] == rest[k] ==> rest[j] == rest[i] {
        assert tags[i + 1] == tags[k + 1] ==> tags[j + 1] == tags[i + 1];
      }
      if tags[0] in rest {
        var k :| 0 <= k < |rest| && rest[k] == tags[0];
        assert k > 0 ==> tags[0] == tags[k + 1];
      }
    } else {
      var i, j, k :| 0 <= i < j < k < |tags| && tags[i] == tags[k] && tags[j] != tags[i];
      if i > 0 {
        assert rest[i - 1] == rest[k - 1] && rest[j - 1] != rest[i - 1];
      } else if tags[0] == tags[1] {
        assert rest[0] == rest[k - 1] && rest[j - 1] != rest[0];
      } else {
        assert rest[k - 1] == tags[0];
      }
    }
  }

  /** dedup leaves no repeats exactly when equal tags came next to each other. */
  lemma {:induction false} DedupCleansIff(tags: seq<Tag>)
    ensures NoRepeats(Dedup(tags)) <==> Contiguous(tags)
    decreases |tags|
  {
    if |tags| >= 2 {
      DedupCleansIff(tags[1..]);
      ContiguousStep(tags);
      if tags[0] != tags[1] {
        RepeatsStep(tags[0], Dedup(tags[1..]));
      }
    }
  }

  lemma RepeatsStep(t: Tag, tags: seq<Tag>)
    ensures NoRepeats([t] + tags) <==> t !in tags && NoRepeats(tags)
  {
    var m := multiset(tags);
    assert multiset([t] + tags) == m + multiset{t};
    if NoRepeats([t] + tags) {
      forall u ensures m[u] <= 1 {
        assert (m + multiset{t})[u] <= 1;
      }
      assert (m + multiset{t})[t] == m[t] + 1;
    }
  }

  lemma {:induction false} DedupKeeps(tags: seq<Tag>)
    requires NoRepeats(tags)
    ensures Dedup(tags) == tags
    decreases |tags|
  {
    if |tags| >= 2 {
      assert tags == [tags[0]] + tags[1..];
      RepeatsStep(tags[0], tags[1..]);
      DedupKeeps(tags[1..]);
    }
  }

  lemma SortedIsContiguous(tags: seq<Tag>)
    requires Sorted(tags)
    ensures Contiguous(tags)
  {
    forall i, j, k | 0 <= i < j < k < |tags| && tags[i] == tags[k] ensures tags[j] == tags[i] {
      Order(tags[i], tags[j]);
    }
  }

  // ---------- Tag sets ----------

  /** What parse and extend keep of a list of tags. */
  function Canonical(tags: seq<Tag>): seq<Tag> {
    Sort(Dedup(tags))
  }

  lemma CanonicalKeepsTags(tags: seq<Tag>)
    ensures forall t :: t in Canonical(tags) <==> t in tags
    ensures |Canonical(tags)| <= |tags|
  {
    SortSorts(Dedup(tags));
    assert |Canonical(tags)| == |multiset(Canonical(tags))| == |Dedup(tags)|;
    assert forall t :: t in Canonical(tags) <==> t in multiset(Canonical(tags));
    assert forall t :: t in Dedup(tags) <==> t in multiset(Dedup(tags));
  }

  function Parsed(section: string): Result<seq<Tag>, ParseError> {
    if |Read(section)| > MAX_TAGS then Err(TooManyTags) else Ok(Canonical(Read(section)))
  }

  class SortedTags {
    var values: seq<Tag>

    constructor (values: seq<Tag>)
      ensures this.values == values
    {
      this.values := values;
    }

    method Extend(other: SortedTags)
      modifies this
      ensures Sorted(values) && values == Canonical(old(values) + old(other.values))
      ensures forall t :: t in values <==> t in old(values) || t in old(other.values)
    {
      values := values + other.values;
      values := Dedup(values);
      SortSorts(values);
      assert forall t :: t in values <==> t in multiset(values);
      values := Sort(values);
      assert forall t :: t in values <==> t in multiset(values);
    }

    method ToStrings() returns (r: seq<string>)
      ensures r == Print(values)
    {
      r := [];
      for i := 0 to |values|
        invariant r == Print(values)[..i]
      {
        var t := values[i];
        if t.value == "" {
          r := r + [t.key];
        } else {
          r := r + [t.key + ":" + t.value];
        }
      }
    }
  }

  method Parse(section: string) returns (r: Result<SortedTags, ParseError>)
    ensures r.Err? <==> |Read(section)| > MAX_TAGS
    ensures r.Ok? ==> fresh(r.value) && Parsed(section) == Ok(r.value.values)
  {
    hide Split, ReadTag, ReadParts, Sort, Dedup;
    var parts, tags := Split(section, ','), [];
    assert parts[0..] == parts;
    for i := 0 to |parts|
      invariant |tags| <= MAX_TAGS && tags + ReadParts(parts[i..]) == Read(section)
    {
      ReadPartsStep(parts, i);
      if parts[i] != "" {
        if |tags| >= MAX_TAGS {
          return Err(TooManyTags);
        }
        tags := tags + [ReadTag(parts[i])];
      }
    }
    ReadPartsEnd(parts);
    assert tags == Read(section);
    tags := Sort(Dedup(tags));
    var sorted := new SortedTags(tags);
    return Ok(sorted);
  }

  /** Two lists are kept as the same tags exactly when dropping adjacent repeats leaves the same collection. */
  lemma SameTagsIff(a: seq<Tag>, b: seq<Tag>)
    ensures Canonical(a) == Canonical(b) <==> multiset(Dedup(a)) == multiset(Dedup(b))
  {
    SortSorts(Dedup(a));
    SortSorts(Dedup(b));
    if multiset(Dedup(a)) == multiset(Dedup(b)) {
      SortedIsUnique(Canonical(a), Canonical(b));
    }
  }

  lemma SameCollection(a: seq<Tag>, b: seq<Tag>)
    requires NoRepeats(a) && NoRepeats(b)
    ensures multiset(a) == multiset(b) <==> forall t :: t in a <==> t in b
  {
    assert forall t :: t in a <==> t in multiset(a);
    assert forall t :: t in b <==> t in multiset(b);
    if forall t :: t in a <==> t in b {
      forall t ensures multiset(a)[t] == multiset(b)[t] {
        assert t in multiset(a) <==> t in multiset(b);
      }
    }
  }

  /**
   * Order does not matter: with equal tags sent next to each other, two lists are
   * kept as the same tags exactly when they hold the same set of tags.
   */
  lemma OrderDoesNotMatter(a: seq<Tag>, b: seq<Tag>)
    requires Contiguous(a) && Contiguous(b)
    ensures Canonical(a) == Canonical(b) <==> forall t :: t in a <==> t in b
  {
    DedupCleansIff(a);
    DedupCleansIff(b);
    SameTagsIff(a, b);
    SameCollection(Dedup(a), Dedup(b));
  }

  /** Duplicates are removed exactly when equal tags were sent next to each other. */
  lemma DuplicatesRemovedIff(tags: seq<Tag>)
    ensures NoRepeats(Canonical(tags)) <==> Contiguous(tags)
  {
    DedupCleansIff(tags);
    SortSorts(Dedup(tags));
  }

  /**
   * A duplicate with another tag in between is kept: the texts `a,b,a` and
   * `a,b` name the same set of tags and parse differently.
   */
  lemma DuplicateKept(a: Tag, b: Tag)
    requires a != b && Readable(a) && Readable(b) && a != BLANK && b != BLANK
    ensures
      var three, two := Parsed(Join(Print([a, b, a]), ",")), Parsed(Join(Print([a, b]), ","));
      three.Ok? && two.Ok? && multiset(three.value) == multiset{a, a, b} && three != two
  {
    hide Sort, Dedup, Read;
    ReadPrinted([a, b, a]);
    ReadPrinted([a, b]);
    DedupOfThree(a, b);
    SortSorts([a, b, a]);
    SortSorts([a, b]);
    assert multiset([a, b, a])[a] == 2 && multiset([a, b])[a] == 1;
  }

  lemma DedupOfThree(a: Tag, b: Tag)
    requires a != b
    ensures Dedup([a, b, a]) == [a, b, a] && Dedup([a, b]) == [a, b]
  {
    var three, two := [a, b, a], [b, a];
    assert three[1..] == two && two[1..] == [a] && [a, b][1..] == [b];
    assert Dedup(two) == [b] + Dedup([a]);
  }

  /**
   * Printing parsed tags and parsing the text again gives the same tags exactly
   * when the first text had no wholly empty tag and no duplicates apart from each other.
   */
  lemma RoundTripIff(section: string)
    requires Parsed(section).Ok?
    ensures var tags := Parsed(section).value;
            Parsed(Join(Print(tags), ",")) == Ok(tags) <==> BLANK !in Read(section) && Contiguous(Read(section))
  {
    var tags := Parsed(section).value;
    ParsedIsCanonical(section);
    ReadPrinted(tags);
    DuplicatesRemovedIff(Read(section));
    var again := WithoutBlank(tags);
    DedupCleansIff(again);
    SortSorts(Dedup(again));
    if BLANK !in tags {
      SortedIsContiguous(tags);
      if NoRepeats(tags) {
        DedupKeeps(tags);
        SortedIsUnique(Sort(tags), tags);
      }
    } else {
      assert BLANK !in Dedup(again);
      assert BLANK !in multiset(Canonical(again));
    }
  }

  /** Parsed tags are sorted, few, printable, and exactly those read. */
  lemma ParsedIsCanonical(section: string)
    requires Parsed(section).Ok?
    ensures var tags := Parsed(section).value;
            && Sorted(tags) && |tags| <= MAX_TAGS
            && (forall t :: t in tags <==> t in Read(section))
            && (forall t | t in tags :: Readable(t))
  {
    var read := Read(section);
    SortSorts(Dedup(read));
    CanonicalKeepsTags(read);
    ReadAreReadable(Split(section, ','));
  }

  // ---------- Context ids ----------

  /** A hasher: where it starts, how it takes in an interned name, and how it takes in bytes. */
  datatype Hasher = Hasher(start: nat, name: (nat, string) -> nat, bytes: (nat, string) -> nat)

  /** The state of the hasher once the name and then the keys and values have been fed to it in order. */
  function Fed(h: Hasher, name: string, tags: seq<Tag>): nat {
    if tags == [] then h.name(h.start, name)
    else
      var last := tags[|tags| - 1];
      h.bytes(h.bytes(Fed(h, name, tags[..|tags| - 1]), last.key), last.value)
  }

  method ComputeId(h: Hasher, name: string, tags: Option<SortedTags>) returns (id: nat)
    ensures id == Fed(h, name, if tags.Some? then tags.value.values else [])
  {
    id := h.name(h.start, name);
    if tags.Some? {
      var values := tags.value.values;
      for i := 0 to |values|
        invariant id == Fed(h, name, values[..i])
      {
        assert values[..i + 1][..i] == values[..i];
        id := h.bytes(id, values[i].key);
        id := h.bytes(id, values[i].value);
      }
      assert values[..|values|] == values;
    }
  }

  /** Whatever the hasher, the same set of tags in any order is the same context. */
  lemma IdIgnoresOrder(h: Hasher, name: string, first: string, second: string)
    requires Parsed(first).Ok? && Parsed(second).Ok?
    requires Contiguous(Read(first)) && Contiguous(Read(second))
    requires forall t :: t in Read(first) <==> t in Read(second)
    ensures Fed(h, name, Parsed(first).value) == Fed(h, name, Parsed(second).value)
  {
    OrderDoesNotMatter(Read(first), Read(second));
  }

  /** A hasher that tells apart everything it is fed, and in which order. */
  ghost predicate TellsApart(h: Hasher) {
    && (forall x, y | h.name(h.start, x) == h.name(h.start, y) :: x == y)
    && (forall m, x, n, y | h.bytes(m, x) == h.bytes(n, y) :: m == n && x == y)
    && (forall x, m, y :: h.name(h.start, x) != h.bytes(m, y))
  }

  /** With such a hasher two contexts share an id only when they have the same name and the same list of tags. */
  lemma {:induction false} IdsTellApart(h: Hasher, name: string, tags: seq<Tag>, name': string, tags': seq<Tag>)
    requires TellsApart(h) && Fed(h, name, tags) == Fed(h, name', tags')
    ensures name == name' && tags == tags'
  {
    if tags != [] && tags' != [] {
      var k, k' := |tags| - 1, |tags'| - 1;
      IdsTellApart(h, name, tags[..k], name', tags'[..k']);
      assert tags == tags[..k] + [tags[k]] && tags' == tags'[..k'] + [tags'[k']];
    }
  }
}
