/** Writing directives in any legal spelling, and reading them back. */
module CacheControlText {
  import opened Wrappers
  import opened Ascii
  import opened Strings
  import opened CacheControl

  /** One character of a quoted-string, with or without a backslash. */
  datatype QuotedChar = QuotedChar(c: char, escaped: bool)

  datatype Spelling = Bare | TokenValue(token: string) | QuotedValue(text: seq<QuotedChar>)

  /** A member as written: white space, name, white space around `=`, value, white space. */
  datatype Written = Written(
    name: string, spelling: Spelling, lead: string, beforeEquals: string, afterEquals: string, trail: string)

  /** Quotes and backslashes are escaped; the program lets any other character stand in a quoted-string. */
  predicate WellQuoted(text: seq<QuotedChar>) {
    forall i :: 0 <= i < |text| ==> (text[i].c == '"' || text[i].c == '\\' ==> text[i].escaped)
  }

  predicate Legal(w: Written) {
    && IsToken(w.name)
    && AllSpace(w.lead) && AllSpace(w.beforeEquals) && AllSpace(w.afterEquals) && AllSpace(w.trail)
    && match w.spelling
       case Bare => true
       case TokenValue(token) => IsToken(token)
       case QuotedValue(text) => WellQuoted(text)
  }

  function Encode(text: seq<QuotedChar>): string {
    if |text| == 0 then ""
    else (if text[0].escaped then ['\\', text[0].c] else [text[0].c]) + Encode(text[1..])
  }

  /** What the text stands for: a backslash goes unless what it escapes may not be escaped. */
  function Plain(text: seq<QuotedChar>): string {
    if |text| == 0 then ""
    else (if text[0].escaped && !IsQuotable(text[0].c) then ['\\', text[0].c] else [text[0].c]) + Plain(text[1..])
  }

  function PrintValue(spelling: Spelling): string
    requires !spelling.Bare?
  {
    match spelling
    case TokenValue(token) => token
    case QuotedValue(text) => "\"" + (Encode(text) + "\"")
  }

  function PrintCore(w: Written): string {
    if w.spelling.Bare? then w.name
    else (w.name + w.beforeEquals) + ("=" + (w.afterEquals + PrintValue(w.spelling)))
  }

  function Print(w: Written): string {
    w.lead + (PrintCore(w) + w.trail)
  }

  /** The directive a written member stands for. */
  function Meaning(w: Written): Directive {
    Directive(Lower(w.name),
              match w.spelling
              case Bare => None
              case TokenValue(token) => Some(token)
              case QuotedValue(text) => Some(Plain(text)))
  }

  function PrintList(ws: seq<Written>): string {
    Join(seq(|ws|, i requires 0 <= i < |ws| => Print(ws[i])), ",")
  }

  // ---------------------------------------------------------------- trimming

  ghost predicate SolidEnds(s: string) {
    |s| > 0 && !IsSpace(s[0]) && !IsSpace(s[|s| - 1])
  }

  lemma {:induction false} TrimStartPadded(pad: string, s: string)
    requires AllSpace(pad) && |s| > 0 && !IsSpace(s[0])
    ensures TrimStart(pad + s) == s
  {
    if |pad| == 0 {
      assert pad + s == s;
    } else {
      TrimStartPadded(pad[1..], s);
      assert (pad + s)[1..] == pad[1..] + s;
    }
  }

  lemma {:induction false} TrimEndPadded(s: string, pad: string)
    requires AllSpace(pad) && |s| > 0 && !IsSpace(s[|s| - 1])
    ensures TrimEnd(s + pad) == s
  {
    if |pad| == 0 {
      assert s + pad == s;
    } else {
      TrimEndPadded(s, pad[..|pad| - 1]);
      assert (s + pad)[..|s + pad| - 1] == s + pad[..|pad| - 1];
    }
  }

  lemma TrimPadded(lead: string, s: string, trail: string)
    requires AllSpace(lead) && AllSpace(trail) && SolidEnds(s)
    ensures Trim(lead + (s + trail)) == s
  {
    hide AllSpace, TrimStart, TrimEnd, IsSpace;
    assert (s + trail)[0] == s[0];
    TrimStartPadded(lead, s + trail);
    TrimEndPadded(s, trail);
  }

  lemma TokenIsSolid(s: string)
    requires IsToken(s)
    ensures SolidEnds(s)
    ensures IndexOf(s, '=').None?
  {
    TokenCharsAreSolid();
    NoOccurrence(s, '=');
  }

  lemma TokenCharsAreSolid()
    ensures forall c :: IsTokenChar(c) ==> !IsSpace(c) && c != '=' && c != ',' && c != '"' && c != '\\'
  {
  }

  lemma {:induction false} NoOccurrence(s: string, c: char)
    requires forall i :: 0 <= i < |s| ==> s[i] != c
    ensures IndexOf(s, c).None?
  {
    if |s| > 0 {
      NoOccurrence(s[1..], c);
    }
  }

  lemma {:induction false} FirstOccurrence(a: string, c: char, b: string)
    requires forall i :: 0 <= i < |a| ==> a[i] != c
    ensures IndexOf(a + ([c] + b), c) == Some(|a|)
  {
    if |a| == 0 {
      assert a + ([c] + b) == [c] + b;
    } else {
      FirstOccurrence(a[1..], c, b);
      assert (a + ([c] + b))[1..] == a[1..] + ([c] + b);
    }
  }

  // ---------------------------------------------------------------- quoted text

  lemma {:induction false} ClosingQuoteFound(s: string, i: nat, text: seq<QuotedChar>)
    requires WellQuoted(text)
    requires i + |Encode(text)| < |s| && s[i..i + |Encode(text)|] == Encode(text)
    requires s[i + |Encode(text)|] == '"'
    ensures ClosingQuote(s, i, false) == Some(i + |Encode(text)|)
    decreases |text|
  {
    if |text| > 0 {
      var width := if text[0].escaped then 2 else 1;
      var code := s[i..i + |Encode(text)|];
      assert code[width..] == Encode(text[1..]);
      assert code[width..] == s[i + width..i + width + |Encode(text[1..])|];
      assert s[i] == code[0];
      ClosingQuoteFound(s, i + width, text[1..]);
    }
  }

  lemma UnescapePlainChar(c: char, rest: string)
    requires c != '\\'
    ensures Unescape([c] + rest) == [c] + Unescape(rest)
  {
    assert ([c] + rest)[1..] == rest;
  }

  lemma UnescapeEscaped(c: char, rest: string)
    requires IsQuotable(c)
    ensures Unescape(['\\', c] + rest) == [c] + Unescape(rest)
  {
    assert (['\\', c] + rest)[2..] == rest;
  }

  lemma UnescapeKept(c: char, rest: string)
    requires !IsQuotable(c)
    ensures Unescape(['\\', c] + rest) == ['\\', c] + Unescape(rest)
  {
    UnescapePlainChar(c, rest);
    var code := ['\\', c] + rest;
    assert code[0] == '\\' && code[1] == c && code[1..] == [c] + rest;
    assert Unescape(code) == ['\\'] + Unescape([c] + rest);
  }

  lemma {:induction false} UnescapeOfEncode(text: seq<QuotedChar>)
    requires WellQuoted(text)
    ensures Unescape(Encode(text)) == Plain(text)
  {
    hide Unescape, IsQuotable;
    if |text| == 0 {
      UnescapeNothing();
    } else {
      var c, rest := text[0].c, Encode(text[1..]);
      UnescapeOfEncode(text[1..]);
      if !text[0].escaped {
        UnescapePlainChar(c, rest);
      } else if IsQuotable(c) {
        UnescapeEscaped(c, rest);
      } else {
        UnescapeKept(c, rest);
      }
    }
  }

  lemma UnescapeNothing()
    ensures Unescape("") == ""
  {
  }

  lemma ParseQuotedValue(text: seq<QuotedChar>)
    requires WellQuoted(text)
    ensures ParseValue(PrintValue(QuotedValue(text))) == Some(Plain(text))
  {
    var code := Encode(text);
    var s := PrintValue(QuotedValue(text));
    assert |s| == |code| + 2 && s[0] == '"' && s[1 + |code|] == '"';
    assert s[1..1 + |code|] == code;
    ClosingQuoteFound(s, 1, text);
    UnescapeOfEncode(text);
    assert s[1 + |code| + 1..] == "";
  }

  lemma ParsePrintedValue(spelling: Spelling)
    requires !spelling.Bare?
    requires spelling.TokenValue? ==> IsToken(spelling.token)
    requires spelling.QuotedValue? ==> WellQuoted(spelling.text)
    ensures SolidEnds(PrintValue(spelling))
    ensures ParseValue(PrintValue(spelling)) ==
              Some(if spelling.TokenValue? then spelling.token else Plain(spelling.text))
  {
    TokenCharsAreSolid();
    if spelling.TokenValue? {
      assert spelling.token[0] != '"';
    } else {
      ParseQuotedValue(spelling.text);
      var s := PrintValue(spelling);
      assert s[|s| - 1] == '"';
    }
  }

  // ---------------------------------------------------------------- one member

  lemma SolidCore(w: Written)
    requires Legal(w)
    ensures SolidEnds(PrintCore(w))
  {
    TokenIsSolid(w.name);
    if !w.spelling.Bare? {
      ParsePrintedValue(w.spelling);
      var core, value := PrintCore(w), PrintValue(w.spelling);
      assert core[0] == w.name[0];
      assert core[|core| - 1] == value[|value| - 1];
    }
  }

  lemma NameBeforeEquals(name: string, pad: string)
    requires IsToken(name) && AllSpace(pad)
    ensures Trim(name + pad) == name
    ensures forall i :: 0 <= i < |name + pad| ==> (name + pad)[i] != '='
  {
    TokenIsSolid(name);
    TokenCharsAreSolid();
    TrimPadded("", name, pad);
    assert "" + (name + pad) == name + pad;
    forall i | 0 <= i < |name + pad| ensures (name + pad)[i] != '=' {
      assert !IsSpace('=');
    }
  }

  lemma ValueAfterEquals(pad: string, value: string)
    requires AllSpace(pad) && SolidEnds(value)
    ensures Trim(pad + value) == value
  {
    TrimPadded(pad, value, "");
    assert value + "" == value;
  }

  lemma ParseBare(raw: string, name: string)
    requires Trim(raw) == name && IsToken(name)
    ensures ParseMember(raw) == Some(Directive(Lower(name), None))
  {
    TokenIsSolid(name);
    NameBeforeEquals(name, "");
    assert name + "" == name;
    hide Trim, IsToken, IndexOf, Lower;
  }

  lemma ParseValued(raw: string, left: string, name: string, right: string, rawValue: string)
    requires Trim(raw) == left + (['='] + right)
    requires Trim(left) == name && IsToken(name) && forall i :: 0 <= i < |left| ==> left[i] != '='
    requires Trim(right) == rawValue
    ensures ParseMember(raw)
         == match ParseValue(rawValue)
            case None => None
            case Some(value) => Some(Directive(Lower(name), Some(value)))
  {
    FirstOccurrence(left, '=', right);
    var core := left + (['='] + right);
    assert core[..|left|] == left && core[|left| + 1..] == right;
    assert core != "";
    hide Trim, IsToken, IndexOf, ParseValue, Lower;
  }

  /** A member in any legal spelling parses to the directive it stands for. */
  lemma ParseOfPrint(w: Written)
    requires Legal(w)
    ensures ParseMember(Print(w)) == Some(Meaning(w))
  {
    SolidCore(w);
    hide ParseMember, ParseValue, SolidEnds, AllSpace, IsToken, Trim, Lower, Encode, Plain, WellQuoted;
    TrimPadded(w.lead, PrintCore(w), w.trail);
    if w.spelling.Bare? {
      ParseBare(Print(w), w.name);
    } else {
      var left, right := w.name + w.beforeEquals, w.afterEquals + PrintValue(w.spelling);
      NameBeforeEquals(w.name, w.beforeEquals);
      ParsePrintedValue(w.spelling);
      ValueAfterEquals(w.afterEquals, PrintValue(w.spelling));
      ParseValued(Print(w), left, w.name, right, PrintValue(w.spelling));
    }
  }

  // ---------------------------------------------------------------- members and quotes

  /** Text that stays one member from start to end, and ends outside quotes. */
  ghost predicate OneMember(scan: Scan, s: string) {
    Members(scan, s) == [s] && ScanAll(scan, s) == OUTSIDE
  }

  lemma {:induction false} OneMemberAppend(scan: Scan, a: string, b: string)
    requires ScanAll(scan, a) == OUTSIDE && |Members(scan, a)| == 1
    requires |Members(OUTSIDE, b)| == 1
    ensures |Members(scan, a + b)| == 1 && ScanAll(scan, a + b) == ScanAll(OUTSIDE, b)
    decreases |a|
  {
    if |a| == 0 {
      assert a + b == b;
    } else {
      assert (a + b)[1..] == a[1..] + b && (a + b)[0] == a[0];
      OneMemberAppend(Next(scan, a[0]), a[1..], b);
    }
  }

  lemma {:induction false} SingleMemberIsWhole(scan: Scan, s: string)
    requires |Members(scan, s)| == 1
    ensures Members(scan, s) == [s]
    decreases |s|
  {
    if |s| > 0 {
      SingleMemberIsWhole(Next(scan, s[0]), s[1..]);
      assert [s[0]] + s[1..] == s;
    }
  }

  lemma {:induction false} UnquotedText(s: string)
    requires forall i :: 0 <= i < |s| ==> s[i] != ',' && s[i] != '"'
    ensures |Members(OUTSIDE, s)| == 1 && ScanAll(OUTSIDE, s) == OUTSIDE
    decreases |s|
  {
    if |s| > 0 {
      UnquotedText(s[1..]);
    }
  }

  lemma {:induction false} QuotedText(text: seq<QuotedChar>)
    requires WellQuoted(text)
    ensures var s := Encode(text) + "\"";
            |Members(Scan(true, false), s)| == 1 && ScanAll(Scan(true, false), s) == OUTSIDE
    decreases |text|
  {
    var s := Encode(text) + "\"";
    if |text| == 0 {
      assert s == "\"" && s[1..] == "";
    } else {
      var rest := Encode(text[1..]) + "\"";
      QuotedText(text[1..]);
      if text[0].escaped {
        assert s[1..] == [text[0].c] + rest;
        assert s[1..][1..] == rest;
      } else {
        assert s[1..] == rest;
      }
    }
  }

  lemma QuotedValueIsOneMember(text: seq<QuotedChar>)
    requires WellQuoted(text)
    ensures var s := PrintValue(QuotedValue(text));
            |Members(OUTSIDE, s)| == 1 && ScanAll(OUTSIDE, s) == OUTSIDE
  {
    var s := PrintValue(QuotedValue(text));
    QuotedText(text);
    assert s[0] == '"' && s[1..] == Encode(text) + "\"";
  }

  lemma SpacesAndTokensUnquoted(s: string)
    requires forall i :: 0 <= i < |s| ==> IsSpace(s[i]) || IsTokenChar(s[i]) || s[i] == '='
    ensures |Members(OUTSIDE, s)| == 1 && ScanAll(OUTSIDE, s) == OUTSIDE
  {
    TokenCharsAreSolid();
    assert !IsSpace(',') && !IsSpace('"');
    UnquotedText(s);
  }

  lemma Regroup(a: string, b: string, c: string, d: string, e: string, f: string, g: string)
    ensures a + (((b + c) + (d + (e + f))) + g) == ((a + ((b + c) + (d + e))) + f) + g
  {
  }

  lemma UnquotedParts(a: string, b: string, c: string, d: string)
    requires AllSpace(a) && IsToken(b) && AllSpace(c) && AllSpace(d)
    ensures var s := a + ((b + c) + ("=" + d));
            |Members(OUTSIDE, s)| == 1 && ScanAll(OUTSIDE, s) == OUTSIDE
  {
    hide IsSpace, IsTokenChar, Members, ScanAll;
    SpacesAndTokensUnquoted(a + ((b + c) + ("=" + d)));
  }

  lemma QuotedPrint(w: Written)
    requires Legal(w) && w.spelling.QuotedValue?
    ensures |Members(OUTSIDE, Print(w))| == 1 && ScanAll(OUTSIDE, Print(w)) == OUTSIDE
  {
    var head := w.lead + ((w.name + w.beforeEquals) + ("=" + w.afterEquals));
    var value := PrintValue(w.spelling);
    UnquotedParts(w.lead, w.name, w.beforeEquals, w.afterEquals);
    SpacesAndTokensUnquoted(w.trail);
    QuotedValueIsOneMember(w.spelling.text);
    hide Members, ScanAll, PrintValue;
    OneMemberAppend(OUTSIDE, head, value);
    OneMemberAppend(OUTSIDE, head + value, w.trail);
    Regroup(w.lead, w.name, w.beforeEquals, "=", w.afterEquals, value, w.trail);
  }

  lemma UnquotedPrint(w: Written)
    requires Legal(w) && !w.spelling.QuotedValue?
    ensures |Members(OUTSIDE, Print(w))| == 1 && ScanAll(OUTSIDE, Print(w)) == OUTSIDE
  {
    hide IsSpace, IsTokenChar, Members, ScanAll;
    SpacesAndTokensUnquoted(Print(w));
  }

  /** A printed member never leaks a comma or an open quote to its neighbours. */
  lemma PrintIsOneMember(w: Written)
    requires Legal(w)
    ensures OneMember(OUTSIDE, Print(w))
  {
    hide Legal, Print, Members, ScanAll;
    if w.spelling.QuotedValue? {
      QuotedPrint(w);
    } else {
      UnquotedPrint(w);
    }
    SingleMemberIsWhole(OUTSIDE, Print(w));
  }

  lemma ParseMembersOfOne(member: string)
    ensures ParseMembers([member])
         == match ParseMember(member) case None => [] case Some(directive) => [directive]
  {
    hide ParseMember;
    assert [member][..0] == [];
    assert ParseMembers([member][..0]) == [];
  }

  lemma ParseOfOne(w: Written)
    requires Legal(w)
    ensures Parse(Print(w)) == [Meaning(w)] && EndsUnquoted(Print(w))
  {
    PrintIsOneMember(w);
    ParseOfPrint(w);
    ParseMembersOfOne(Print(w));
  }

  /** Any directive list, in any legal spelling, reads back as itself. */
  lemma ParseOfPrintList(ws: seq<Written>)
    requires forall i :: 0 <= i < |ws| ==> Legal(ws[i])
    ensures Parse(PrintList(ws)) == seq(|ws|, i requires 0 <= i < |ws| => Meaning(ws[i]))
  {
    var texts := seq(|ws|, i requires 0 <= i < |ws| => Print(ws[i]));
    forall i | 0 <= i < |texts| ensures EndsUnquoted(texts[i]) && Parse(texts[i]) == [Meaning(ws[i])] {
      ParseOfOne(ws[i]);
    }
    ParseOfJoined(texts);
    ParseEachSingle(texts, seq(|ws|, i requires 0 <= i < |ws| => Meaning(ws[i])));
  }

  lemma {:induction false} ParseEachSingle(texts: seq<string>, ds: seq<Directive>)
    requires |texts| == |ds| && forall i :: 0 <= i < |texts| ==> Parse(texts[i]) == [ds[i]]
    ensures ParseEach(texts) == ds
  {
    if |texts| > 0 {
      ParseEachSingle(texts[1..], ds[1..]);
      assert ds == [ds[0]] + ds[1..];
    }
  }
}
