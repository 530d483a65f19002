/** Cutting text at a separator and putting it together again. */
module Texts {
  import opened Wrappers

  /** split_once: what is before and after the first separator. */
  function SplitOnce(s: string, separator: char): (r: Option<(string, string)>)
    ensures r.None? <==> separator !in s
    ensures r.Some? ==> s == r.value.0 + [separator] + r.value.1 && separator !in r.value.0
  {
    if s == [] then None
    else if s[0] == separator then Some(([], s[1..]))
    else match SplitOnce(s[1..], separator)
      case None => None
      case Some((a, b)) => Some(([s[0]] + a, b))
  }

  function Split(s: string, separator: char): (parts: seq<string>)
    ensures parts != [] && forall i | 0 <= i < |parts| :: separator !in parts[i]
    decreases |s|
  {
    match SplitOnce(s, separator)
    case None => [s]
    case Some((a, b)) => [a] + Split(b, separator)
  }

  function Join(parts: seq<string>, separator: string): string {
    if parts == [] then ""
    else if |parts| == 1 then parts[0]
    else parts[0] + separator + Join(parts[1..], separator)
  }

  lemma {:induction false} SplitOnceAt(a: string, b: string, separator: char)
    requires separator !in a
    ensures SplitOnce(a + [separator] + b, separator) == Some((a, b))
  {
    var s := a + [separator] + b;
    if a == [] {
      assert s[1..] == b;
    } else {
      SplitOnceAt(a[1..], b, separator);
      assert s[1..] == a[1..] + [separator] + b && [a[0]] + a[1..] == a;
    }
  }

  lemma {:induction false} SplitJoin(parts: seq<string>, separator: char)
    requires parts != [] && forall i | 0 <= i < |parts| :: separator !in parts[i]
    ensures Split(Join(parts, [separator]), separator) == parts
  {
    hide SplitOnce;
    if |parts| > 1 {
      SplitOnceAt(parts[0], Join(parts[1..], [separator]), separator);
      SplitJoin(parts[1..], separator);
    }
  }
}
