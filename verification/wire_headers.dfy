/**
 Two ways of reading a repeated request header: the signer coalesces the octets of every field
 line, the pool reads the record Node's HTTP parser has already joined.
 */
module WireHeaders {
  import opened Ascii
  import opened ProofFraming
  import opened Strings

  /** One field line as it crosses the wire; Node and Envoy both lower-case the name. */
  datatype FieldLine = FieldLine(name: string, octets: string)

  /** A value in Node's `req.headers`; only `set-cookie` is ever an array. */
  datatype NodeValue = Undefined | Text(text: string) | Texts(texts: seq<string>)

  const SINGLETONS: set<string> := {
    "age", "authorization", "content-length", "content-type", "etag", "expires", "from", "host",
    "if-modified-since", "if-unmodified-since", "last-modified", "location", "max-forwards",
    "proxy-authorization", "referer", "retry-after", "server", "user-agent"
  }

  ghost predicate IsOctets(s: string) {
    forall i :: 0 <= i < |s| ==> s[i] as int < 256
  }

  function Latin1Char(c: char): char {
    (c as int % 256) as char
  }

  /** `Buffer.from(s, "latin1")`: each code unit is cut to its low octet. */
  function Latin1Encode(s: string): (r: string)
    ensures IsOctets(r) && |r| == |s|
  {
    seq(|s|, i requires 0 <= i < |s| => Latin1Char(s[i]))
  }

  function Latin1EncodeAll(ss: seq<string>): seq<string> {
    seq(|ss|, i requires 0 <= i < |ss| => Latin1Encode(ss[i]))
  }

  function Concat(parts: seq<string>): string {
    if |parts| == 0 then "" else parts[0] + Concat(parts[1..])
  }

  function Separator(lower: string): string {
    if lower == "cookie" then "; " else ", "
  }

  /** The value the next hop sees for a header sent as `values`; no line at all is absence. */
  function Coalesce(name: string, values: seq<string>): Field {
    if |values| == 0 then Absent
    else if Lower(name) in SINGLETONS then Present(values[0])
    else Present(Join(values, Separator(Lower(name))))
  }

  /**
   Node's three rules by name: `Cookie` lines join with "; ", `Host` and its like keep their first
   line, and every other name, `Set-Cookie` among them, joins with ", ".
   */
  lemma CoalesceByName(name: string, values: seq<string>)
    ensures values == [] ==> Coalesce(name, values) == Absent
    ensures values != [] && SameLetters(name, "cookie") ==> Coalesce(name, values) == Present(Join(values, "; "))
    ensures values != [] && SameLetters(name, "set-cookie") ==> Coalesce(name, values) == Present(Join(values, ", "))
    ensures values != [] && (SameLetters(name, "host") || SameLetters(name, "authorization")
                             || SameLetters(name, "user-agent") || SameLetters(name, "content-type")) ==>
              Coalesce(name, values) == Present(values[0])
    ensures values != [] && Lower(name) !in SINGLETONS && !SameLetters(name, "cookie") ==>
              Coalesce(name, values) == Present(Join(values, ", "))
  {
    LowerIs(name, "cookie");
    LowerIs(name, "set-cookie");
    LowerIs(name, "host");
    LowerIs(name, "authorization");
    LowerIs(name, "user-agent");
    LowerIs(name, "content-type");
  }

  lemma {:induction false} ConcatAppend(parts: seq<string>, last: string)
    ensures Concat(parts + [last]) == Concat(parts) + last
  {
    if |parts| == 0 {
      assert parts + [last] == [last];
    } else {
      ConcatAppend(parts[1..], last);
      assert (parts + [last])[1..] == parts[1..] + [last];
    }
  }

  lemma JoinAppend(values: seq<string>, last: string, separator: string)
    requires |values| > 0
    ensures Join(values + [last], separator) == Join(values, separator) + separator + last
  {
    JoinOfConcat(values, [last], separator);
  }

  method CoalesceWireHeaderBytes(name: string, values: seq<string>) returns (coalesced: Field)
    ensures coalesced == Coalesce(name, values)
  {
    if |values| == 0 {
      return Absent;
    }
    var first := values[0];
    if |values| == 1 {
      return Present(first);
    }
    var lower := Lower(name);
    if lower in SINGLETONS {
      return Present(first);
    }
    var separator := Separator(lower);
    var joined: seq<string> := [];
    for k := 0 to |values|
      invariant k == 0 ==> joined == []
      invariant k > 0 ==> |joined| > 0 && Concat(joined) == Join(values[..k], separator)
    {
      if |joined| > 0 {
        JoinAppend(values[..k], values[k], separator);
        ConcatAppend(joined, separator);
        ConcatAppend(joined + [separator], values[k]);
        joined := joined + [separator];
      } else {
        assert values[..1] == [values[0]];
        assert Concat([values[0]]) == values[0];
      }
      joined := joined + [values[k]];
      assert values[..k + 1] == values[..k] + [values[k]];
    }
    assert values[..|values|] == values;
    return Present(Concat(joined));
  }

  /** The octets of every line with this (lower-case) name, in order. */
  function ValuesOf(lines: seq<FieldLine>, name: string): seq<string> {
    if |lines| == 0 then []
    else
      var front := ValuesOf(lines[..|lines| - 1], name);
      var line := lines[|lines| - 1];
      if Lower(line.name) == name then front + [line.octets] else front
  }

  /**
   One step of Node's `_addHeaderLine`: `set-cookie` collects an array, a singleton keeps its
   first value, everything else is joined onto the text already there.
   */
  function NodeAdd(current: NodeValue, name: string, text: string): NodeValue {
    match current
    case Undefined => if name == "set-cookie" then Texts([text]) else Text(text)
    case Texts(texts) => Texts(texts + [text])
    case Text(sofar) =>
      if name in SINGLETONS then current else Text(sofar + Separator(name) + text)
  }

  /** What `req.headers[name]` holds once every line has been added. */
  function NodeRecord(lines: seq<FieldLine>, name: string): NodeValue {
    if |lines| == 0 then Undefined
    else
      var front := NodeRecord(lines[..|lines| - 1], name);
      var line := lines[|lines| - 1];
      if Lower(line.name) == name then NodeAdd(front, name, line.octets) else front
  }

  /** Read one header off a Node record as wire octets. */
  function WireHeaderBytes(name: string, value: NodeValue): Field {
    match value
    case Undefined => Absent
    case Text(text) => Present(Latin1Encode(text))
    case Texts(texts) => Coalesce(name, Latin1EncodeAll(texts))
  }

  lemma Latin1OfOctets(s: string)
    requires IsOctets(s)
    ensures Latin1Encode(s) == s
  {
  }

  /** What the record holds, in terms of the values the lines carried. */
  lemma {:induction false} NodeRecordHolds(lines: seq<FieldLine>, name: string)
    ensures var values, record := ValuesOf(lines, name), NodeRecord(lines, name);
            record ==
            if |values| == 0 then Undefined
            else if name == "set-cookie" then Texts(values)
            else if name in SINGLETONS then Text(values[0])
            else Text(Join(values, Separator(name)))
  {
    if |lines| > 0 {
      var front := lines[..|lines| - 1];
      NodeRecordHolds(front, name);
      var values := ValuesOf(front, name);
      var line := lines[|lines| - 1];
      if Lower(line.name) == name && |values| > 0 {
        JoinAppend(values, line.octets, Separator(name));
      }
    }
  }

  lemma {:induction false} ValuesAreOctets(lines: seq<FieldLine>, name: string)
    requires forall line <- lines :: IsOctets(line.octets)
    ensures forall value <- ValuesOf(lines, name) :: IsOctets(value)
  {
    if |lines| > 0 {
      ValuesAreOctets(lines[..|lines| - 1], name);
    }
  }

  lemma {:induction false} JoinIsOctets(values: seq<string>, separator: string)
    requires IsOctets(separator)
    requires forall value <- values :: IsOctets(value)
    ensures IsOctets(Join(values, separator))
  {
    if |values| > 0 {
      assert values[0] in values;
      JoinIsOctets(values[1..], separator);
    }
  }

  /**
   Octet for octet, the pool's reading of Node's joined record is the signer's coalescing of the
   raw lines, for every header name and any number of repeated lines.
   */
  lemma NodeAgreesWithEdge(lines: seq<FieldLine>, name: string)
    requires forall line <- lines :: IsOctets(line.octets)
    requires Lower(name) == name
    ensures WireHeaderBytes(name, NodeRecord(lines, name)) == Coalesce(name, ValuesOf(lines, name))
  {
    var values := ValuesOf(lines, name);
    NodeRecordHolds(lines, name);
    ValuesAreOctets(lines, name);
    if |values| > 0 {
      if name == "set-cookie" {
        forall i | 0 <= i < |values| ensures Latin1Encode(values[i]) == values[i] {
          Latin1OfOctets(values[i]);
        }
        assert Latin1EncodeAll(values) == values;
      } else if name in SINGLETONS {
        Latin1OfOctets(values[0]);
      } else {
        JoinIsOctets(values, Separator(name));
        Latin1OfOctets(Join(values, Separator(name)));
      }
    }
  }
}
