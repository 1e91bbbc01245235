/**
 Cache-Control as a list of directives: the quote-aware splitter, the member parser, and the
 shared-cache freshness verdict.
 */
module CacheControl {
  import opened Wrappers
  import opened Ascii
  import opened Strings

  /** A directive as parsed; a missing value is `None`. */
  datatype Directive = Directive(name: string, value: Option<string>)

  // ---------------------------------------------------------------- characters

  /** What `String.prototype.trim` removes. */
  predicate IsSpace(c: char) {
    || c == '\t' || c == '\n' || c as int == 0x0b || c as int == 0x0c || c == '\r' || c == ' '
    || c as int == 0xa0 || c as int == 0x1680 || 0x2000 <= c as int <= 0x200a
    || c as int == 0x2028 || c as int == 0x2029 || c as int == 0x202f || c as int == 0x205f
    || c as int == 0x3000 || c as int == 0xfeff
  }

  predicate IsTokenChar(c: char) {
    || '0' <= c <= '9' || 'A' <= c <= 'Z' || 'a' <= c <= 'z'
    || c == '!' || c == '#' || c == '$' || c == '%' || c == '&' || c == '\'' || c == '*'
    || c == '+' || c == '-' || c == '.' || c == '^' || c == '_' || c == '`' || c == '|' || c == '~'
  }

  predicate IsToken(s: string) {
    |s| > 0 && forall i :: 0 <= i < |s| ==> IsTokenChar(s[i])
  }

  /** Characters of a quoted-string, section 5.6.4 of RFC 9110. */
  predicate IsQuotable(c: char) {
    c == '\t' || 0x20 <= c as int <= 0x7e || 0x80 <= c as int <= 0xff
  }

  predicate AllSpace(s: string) {
    forall i :: 0 <= i < |s| ==> IsSpace(s[i])
  }

  function TrimStart(s: string): string {
    if |s| > 0 && IsSpace(s[0]) then TrimStart(s[1..]) else s
  }

  function TrimEnd(s: string): string {
    if |s| > 0 && IsSpace(s[|s| - 1]) then TrimEnd(s[..|s| - 1]) else s
  }

  function Trim(s: string): string {
    TrimEnd(TrimStart(s))
  }

  function IndexOf(s: string, c: char): Option<nat> {
    if |s| == 0 then None
    else if s[0] == c then Some(0)
    else
      match IndexOf(s[1..], c)
      case None => None
      case Some(i) => Some(i + 1)
  }

  // ---------------------------------------------------------------- splitting into members

  datatype Scan = Scan(quoted: bool, escaped: bool)

  const OUTSIDE := Scan(false, false)

  /** One character of the quote scan. */
  function Next(scan: Scan, c: char): Scan {
    if scan.quoted then
      if scan.escaped then Scan(true, false)
      else if c == '\\' then Scan(true, true)
      else Scan(c != '"', false)
    else Scan(c == '"', false)
  }

  function ScanAll(scan: Scan, s: string): Scan
    decreases |s|
  {
    if |s| == 0 then scan else ScanAll(Next(scan, s[0]), s[1..])
  }

  /** Put text in front of the first member. */
  function Prepend(text: string, members: seq<string>): (r: seq<string>)
    requires |members| > 0
    ensures |r| == |members|
  {
    [text + members[0]] + members[1..]
  }

  /** The members of the text that remains, the first one unfinished so far. */
  function Members(scan: Scan, s: string): (members: seq<string>)
    ensures |members| > 0
    decreases |s|
  {
    if |s| == 0 then [""]
    else if !scan.quoted && s[0] == ',' then [""] + Members(OUTSIDE, s[1..])
    else Prepend([s[0]], Members(Next(scan, s[0]), s[1..]))
  }

  // ---------------------------------------------------------------- one member

  /** Index of the quote that closes a quoted-string whose text starts at `i`. */
  function ClosingQuote(s: string, i: nat, escaped: bool): (end: Option<nat>)
    ensures end.Some? ==> i <= end.value < |s|
    decreases |s| - i
  {
    if i >= |s| then None
    else if escaped then ClosingQuote(s, i + 1, false)
    else if s[i] == '\\' then ClosingQuote(s, i + 1, true)
    else if s[i] == '"' then Some(i)
    else ClosingQuote(s, i + 1, false)
  }

  /** `replace(/\\([\t !-~\u0080-\u00ff])/g, "$1")` */
  function Unescape(s: string): string {
    if |s| == 0 then ""
    else if s[0] == '\\' && |s| > 1 && IsQuotable(s[1]) then [s[1]] + Unescape(s[2..])
    else [s[0]] + Unescape(s[1..])
  }

  /** The value after `=`, or nothing if it is malformed. */
  function ParseValue(rawValue: string): Option<string> {
    if |rawValue| > 0 && rawValue[0] == '"' then
      match ClosingQuote(rawValue, 1, false)
      case None => None
      case Some(end) =>
        if Trim(rawValue[end + 1..]) != "" then None else Some(Unescape(rawValue[1..end]))
    else if IsToken(rawValue) then Some(rawValue)
    else None
  }

  /** A member's directive, or nothing if it is empty or malformed. */
  function ParseMember(rawMember: string): Option<Directive> {
    var member := Trim(rawMember);
    if member == "" then None
    else
      var equals := IndexOf(member, '=');
      IndexWithin(member, '=');
      var rawName := Trim(if equals.None? then member else member[..equals.value]);
      if !IsToken(rawName) then None
      else if equals.None? then Some(Directive(Lower(rawName), None))
      else
        match ParseValue(Trim(member[equals.value + 1..]))
        case None => None
        case Some(value) => Some(Directive(Lower(rawName), Some(value)))
  }

  lemma {:induction false} IndexWithin(s: string, c: char)
    ensures IndexOf(s, c).Some? ==> IndexOf(s, c).value < |s|
  {
    if |s| > 0 {
      IndexWithin(s[1..], c);
    }
  }

  function ParseMembers(members: seq<string>): seq<Directive> {
    if |members| == 0 then []
    else
      var front := ParseMembers(members[..|members| - 1]);
      match ParseMember(members[|members| - 1])
      case None => front
      case Some(directive) => front + [directive]
  }

  /** The directives of a header value. */
  function Parse(cacheControl: string): seq<Directive> {
    ParseMembers(Members(OUTSIDE, cacheControl))
  }

  // ---------------------------------------------------------------- the program's loops

  /** The members still to come, the text since `start` belonging to the first of them. */
  ghost function Upcoming(s: string, start: nat, i: nat, scan: Scan): seq<string>
    requires start <= i <= |s|
  {
    Prepend(s[start..i], Members(scan, s[i..]))
  }

  method SplitMembers(cacheControl: string) returns (members: seq<string>)
    ensures members == Members(OUTSIDE, cacheControl)
  {
    members := [];
    var memberStart := 0;
    var quoted, escaped := false, false;
    UpcomingAtStart(cacheControl);
    hide Upcoming, Members;
    for i := 0 to |cacheControl|
      invariant 0 <= memberStart <= i
      invariant !quoted ==> !escaped
      invariant members + Upcoming(cacheControl, memberStart, i, Scan(quoted, escaped))
             == Members(OUTSIDE, cacheControl)
    {
      var c := cacheControl[i];
      UpcomingStep(cacheControl, memberStart, i, Scan(quoted, escaped));
      if quoted {
        if escaped {
          escaped := false;
        } else if c == '\\' {
          escaped := true;
        } else if c == '"' {
          quoted := false;
        }
        continue;
      }
      if c == '"' {
        quoted := true;
      } else if c == ',' {
        members := members + [cacheControl[memberStart..i]];
        memberStart := i + 1;
      }
    }
    UpcomingAtEnd(cacheControl, memberStart, Scan(quoted, escaped));
    members := members + [cacheControl[memberStart..]];
  }

  lemma UpcomingAtStart(s: string)
    ensures Upcoming(s, 0, 0, OUTSIDE) == Members(OUTSIDE, s)
  {
    assert s[0..] == s && s[0..0] == "";
    PrependNothing(Members(OUTSIDE, s));
  }

  lemma UpcomingAtEnd(s: string, start: nat, scan: Scan)
    requires start <= |s|
    ensures Upcoming(s, start, |s|, scan) == [s[start..]]
  {
    assert s[|s|..] == "" && s[start..|s|] + "" == s[start..];
  }

  lemma UpcomingStep(s: string, start: nat, i: nat, scan: Scan)
    requires start <= i < |s|
    ensures Upcoming(s, start, i, scan)
         == if !scan.quoted && s[i] == ',' then [s[start..i]] + Upcoming(s, i + 1, i + 1, OUTSIDE)
            else Upcoming(s, start, i + 1, Next(scan, s[i]))
  {
    assert s[i..][1..] == s[i + 1..];
    var rest := Members(if !scan.quoted && s[i] == ',' then OUTSIDE else Next(scan, s[i]), s[i + 1..]);
    assert s[start..i + 1] + rest[0] == s[start..i] + ([s[i]] + rest[0]);
    assert s[i + 1..i + 1] == "";
    PrependNothing(rest);
    assert s[start..i] + "" == s[start..i];
  }

  lemma PrependNothing(members: seq<string>)
    requires |members| > 0
    ensures Prepend("", members) == members
  {
    assert "" + members[0] == members[0];
  }

  method FindClosingQuote(rawValue: string) returns (end: int)
    ensures ClosingQuote(rawValue, 1, false) == if end == -1 then None else Some(end)
    ensures -1 <= end < |rawValue|
  {
    end := -1;
    var quotedEscape := false;
    var i := 1;
    while i < |rawValue|
      invariant 1 <= i
      invariant ClosingQuote(rawValue, 1, false) == ClosingQuote(rawValue, i, quotedEscape)
    {
      var c := rawValue[i];
      if quotedEscape {
        quotedEscape := false;
      } else if c == '\\' {
        quotedEscape := true;
      } else if c == '"' {
        end := i;
        break;
      }
      i := i + 1;
    }
  }

  /** The body of the second loop: one member, which may contribute nothing. */
  method ReadMember(rawMember: string) returns (directive: Option<Directive>)
    ensures directive == ParseMember(rawMember)
  {
    var member := Trim(rawMember);
    if member == "" {
      return None;
    }
    var equals := IndexOf(member, '=');
    IndexWithin(member, '=');
    var rawName := Trim(if equals.None? then member else member[..equals.value]);
    if !IsToken(rawName) {
      return None;
    }
    if equals.None? {
      return Some(Directive(Lower(rawName), None));
    }
    var rawValue := Trim(member[equals.value + 1..]);
    var value: string;
    if |rawValue| > 0 && rawValue[0] == '"' {
      var end := FindClosingQuote(rawValue);
      if end == -1 || Trim(rawValue[end + 1..]) != "" {
        return None;
      }
      value := Unescape(rawValue[1..end]);
    } else {
      if !IsToken(rawValue) {
        return None;
      }
      value := rawValue;
    }
    return Some(Directive(Lower(rawName), Some(value)));
  }

  method ParseCacheControlDirectives(cacheControl: string) returns (directives: seq<Directive>)
    ensures directives == Parse(cacheControl)
  {
    hide Members, ParseMember;
    var members := SplitMembers(cacheControl);
    directives := [];
    for k := 0 to |members|
      invariant directives == ParseMembers(members[..k])
    {
      assert members[..k + 1][..k] == members[..k];
      var directive := ReadMember(members[k]);
      if directive.Some? {
        directives := directives + [directive.value];
      }
    }
    assert members[..|members|] == members;
  }

  // ---------------------------------------------------------------- compositionality

  /** Nothing after this text is taken as quoted because of it. */
  predicate EndsUnquoted(s: string) {
    !ScanAll(OUTSIDE, s).quoted
  }

  lemma {:induction false} MembersOfConcat(scan: Scan, a: string, b: string)
    requires !ScanAll(scan, a).quoted
    ensures Members(scan, a + "," + b) == Members(scan, a) + Members(OUTSIDE, b)
    decreases |a|
  {
    var s := a + "," + b;
    if |a| == 0 {
      assert s[0] == ',' && s[1..] == b;
    } else {
      var rest := a[1..] + "," + b;
      assert s[1..] == rest && s[0] == a[0];
      if !scan.quoted && a[0] == ',' {
        MembersOfConcat(OUTSIDE, a[1..], b);
        assert Next(scan, ',') == OUTSIDE;
        assert [""] + (Members(OUTSIDE, a[1..]) + Members(OUTSIDE, b))
            == ([""] + Members(OUTSIDE, a[1..])) + Members(OUTSIDE, b);
      } else {
        MembersOfConcat(Next(scan, a[0]), a[1..], b);
        PrependConcat([a[0]], Members(Next(scan, a[0]), a[1..]), Members(OUTSIDE, b));
      }
    }
  }

  lemma PrependConcat(text: string, xs: seq<string>, ys: seq<string>)
    requires |xs| > 0
    ensures Prepend(text, xs + ys) == Prepend(text, xs) + ys
  {
  }

  lemma {:induction false} ParseMembersConcat(xs: seq<string>, ys: seq<string>)
    ensures ParseMembers(xs + ys) == ParseMembers(xs) + ParseMembers(ys)
  {
    if |ys| == 0 {
      assert xs + ys == xs;
    } else {
      ParseMembersConcat(xs, ys[..|ys| - 1]);
      assert (xs + ys)[..|xs + ys| - 1] == xs + ys[..|ys| - 1];
    }
  }

  /** Two field values joined by a comma parse to the two lists joined. */
  lemma ParseOfConcat(a: string, b: string)
    requires EndsUnquoted(a)
    ensures Parse(a + "," + b) == Parse(a) + Parse(b)
  {
    MembersOfConcat(OUTSIDE, a, b);
    ParseMembersConcat(Members(OUTSIDE, a), Members(OUTSIDE, b));
  }

  function ParseEach(texts: seq<string>): seq<Directive> {
    if |texts| == 0 then [] else Parse(texts[0]) + ParseEach(texts[1..])
  }

  lemma {:induction false} ParseOfJoined(texts: seq<string>)
    requires forall i :: 0 <= i < |texts| ==> EndsUnquoted(texts[i])
    ensures Parse(Join(texts, ",")) == ParseEach(texts)
  {
    if |texts| == 0 {
      assert Members(OUTSIDE, "") == [""];
      assert ParseMembers([""][..0]) == [];
      assert ParseMember("").None?;
    } else if |texts| == 1 {
      assert ParseEach(texts[1..]) == [];
    } else {
      ParseOfConcat(texts[0], Join(texts[1..], ","));
      ParseOfJoined(texts[1..]);
    }
  }
}
