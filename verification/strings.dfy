/** JavaScript's `split` and `join` on text, and how they undo each other. */
module Strings {

  /** `text.split(separator)` */
  function Split(text: string, separator: char): (parts: seq<string>)
    ensures |parts| > 0
    ensures forall i :: 0 <= i < |parts| ==> separator !in parts[i]
  {
    if text == "" then
      [""]
    else
      var rest := Split(text[1..], separator);
      if text[0] == separator then [""] + rest else [[text[0]] + rest[0]] + rest[1..]
  }

  /** `parts.join(separator)` */
  function Join(parts: seq<string>, separator: string): string {
    if |parts| == 0 then ""
    else if |parts| == 1 then parts[0]
    else parts[0] + separator + Join(parts[1..], separator)
  }

  lemma ConcatAssociative<T>(a: seq<T>, b: seq<T>, c: seq<T>)
    ensures (a + b) + c == a + (b + c)
  {
  }

  lemma {:induction false} SplitWithoutSeparator(part: string, separator: char)
    requires separator !in part
    ensures Split(part, separator) == [part]
  {
    if part == "" {
    } else {
      assert part[0] in part;
      SplitWithoutSeparator(part[1..], separator);
      assert [part[0]] + part[1..] == part;
    }
  }

  lemma {:induction false} SplitOfConcat(a: string, b: string, separator: char)
    ensures Split(a + [separator] + b, separator) == Split(a, separator) + Split(b, separator)
  {
    var text := a + [separator] + b;
    if a == "" {
      assert text[1..] == b;
    } else {
      assert text[1..] == a[1..] + [separator] + b;
      SplitOfConcat(a[1..], b, separator);
    }
  }

  /** Splitting undoes joining when no part holds the separator. */
  lemma {:induction false} SplitOfJoin(parts: seq<string>, separator: char)
    requires |parts| > 0
    requires forall i :: 0 <= i < |parts| ==> separator !in parts[i]
    ensures Split(Join(parts, [separator]), separator) == parts
  {
    SplitWithoutSeparator(parts[0], separator);
    if |parts| > 1 {
      SplitOfConcat(parts[0], Join(parts[1..], [separator]), separator);
      SplitOfJoin(parts[1..], separator);
    }
  }

  /** Joining always undoes splitting. */
  lemma {:induction false} JoinOfSplit(text: string, separator: char)
    ensures Join(Split(text, separator), [separator]) == text
  {
    if text != "" {
      JoinOfSplit(text[1..], separator);
    }
  }

  lemma {:induction false} JoinOfConcat(a: seq<string>, b: seq<string>, separator: string)
    requires a != [] && b != []
    ensures Join(a + b, separator) == Join(a, separator) + separator + Join(b, separator)
  {
    if |a| == 1 {
      assert (a + b)[1..] == b;
    } else {
      assert (a + b)[1..] == a[1..] + b;
      JoinOfConcat(a[1..], b, separator);
      ConcatAssociative(a[0] + separator, Join(a[1..], separator), separator + Join(b, separator));
    }
  }
}
