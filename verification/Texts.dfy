/** Operations on texts that both the statement printer and the pattern escape use. */
module Texts {

  /** Every occurrence of one character replaced by a text. */
  function ReplaceAll(s: string, from: char, into: string): string {
    if s == [] then [] else (if s[0] == from then into else [s[0]]) + ReplaceAll(s[1..], from, into)
  }

  lemma {:induction false} ReplaceConcat(a: string, b: string, from: char, into: string)
    ensures ReplaceAll(a + b, from, into) == ReplaceAll(a, from, into) + ReplaceAll(b, from, into)
    decreases |a|
  {
    if a == [] {
      assert a + b == b;
    } else {
      assert (a + b)[1..] == a[1..] + b;
      ReplaceConcat(a[1..], b, from, into);
    }
  }

  lemma ReplaceOne(c: char, from: char, into: string)
    ensures ReplaceAll([c], from, into) == if c == from then into else [c]
  {
  }

  function Join(parts: seq<string>, separator: string): string {
    if parts == [] then []
    else if |parts| == 1 then parts[0]
    else parts[0] + separator + Join(parts[1..], separator)
  }

  lemma {:induction false} JoinLast(parts: seq<string>, last: string, separator: string)
    ensures Join(parts + [last], separator) == (if parts == [] then [] else Join(parts, separator) + separator) + last
    decreases |parts|
  {
    if parts == [] {
      assert parts + [last] == [last];
    } else {
      assert (parts + [last])[1..] == parts[1..] + [last];
      JoinLast(parts[1..], last, separator);
      if |parts| > 1 {
        assert Join(parts + [last], separator) == parts[0] + separator + (Join(parts[1..], separator) + separator + last);
      }
    }
  }
}
