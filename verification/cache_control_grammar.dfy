/** Exactly which texts are read as directives, and which characters they may be made of. */
module CacheControlGrammar {
  import opened Wrappers
  import opened Ascii
  import opened CacheControl
  import opened CacheControlText

  // ---------------------------------------------------------------- characters

  /** A token character, section 5.6.2 of RFC 9110: visible ASCII, no double quote, no delimiter. */
  lemma TokenCharIff(c: char)
    ensures IsTokenChar(c) <==> 0x21 <= c as int <= 0x7e && c != '"' && c !in "(),/:;<=>?@[\\]{}"
  {
    Delimiters(c);
  }

  lemma Delimiters(c: char)
    ensures c in "(),/:;<=>?@[\\]{}" <==>
              || c == '(' || c == ')' || c == ',' || c == '/' || c == ':' || c == ';' || c == '<' || c == '=' || c == '>'
              || c == '?' || c == '@' || c == '[' || c == '\\' || c == ']' || c == '{' || c == '}'
  {
  }

  /** What trimming removes: white space and line terminators, sections 12.2 and 12.3 of ECMA-262. */
  lemma SpaceIff(c: char)
    ensures IsSpace(c) <==>
              c as int in {0x09, 0x0a, 0x0b, 0x0c, 0x0d, 0x20, 0xa0, 0x1680, 0x2000, 0x2001, 0x2002, 0x2003, 0x2004,
                           0x2005, 0x2006, 0x2007, 0x2008, 0x2009, 0x200a, 0x2028, 0x2029, 0x202f, 0x205f, 0x3000, 0xfeff}
  {
  }

  /** What a backslash may escape, section 5.6.4 of RFC 9110: tab, space, visible ASCII, and octets from 0x80. */
  lemma QuotableIff(c: char)
    ensures IsQuotable(c) <==> c as int == 9 || (32 <= c as int && c as int != 127 && c as int <= 255)
  {
  }

  // ---------------------------------------------------------------- taking a member apart

  lemma {:induction false} TrimStartSplits(s: string) returns (lead: string)
    ensures AllSpace(lead) && s == lead + TrimStart(s)
    ensures TrimStart(s) != "" ==> !IsSpace(TrimStart(s)[0])
  {
    if |s| > 0 && IsSpace(s[0]) {
      var rest := TrimStartSplits(s[1..]);
      lead := [s[0]] + rest;
    } else {
      lead := "";
    }
  }

  lemma {:induction false} TrimEndSplits(s: string) returns (trail: string)
    ensures AllSpace(trail) && s == TrimEnd(s) + trail
    ensures TrimEnd(s) != "" ==> !IsSpace(TrimEnd(s)[|TrimEnd(s)| - 1])
  {
    if |s| > 0 && IsSpace(s[|s| - 1]) {
      var rest := TrimEndSplits(s[..|s| - 1]);
      trail := rest + [s[|s| - 1]];
    } else {
      trail := "";
    }
  }

  /** Text is its own trimmed text between white space. */
  lemma TrimSplits(s: string) returns (lead: string, trail: string)
    ensures AllSpace(lead) && AllSpace(trail) && s == lead + (Trim(s) + trail)
    ensures Trim(s) != "" ==> SolidEnds(Trim(s))
  {
    hide TrimStart, TrimEnd, IsSpace;
    lead := TrimStartSplits(s);
    trail := TrimEndSplits(TrimStart(s));
    if Trim(s) != "" {
      assert Trim(s)[0] == TrimStart(s)[0];
    }
  }

  lemma {:induction false} IndexSplits(s: string, c: char)
    ensures match IndexOf(s, c)
            case None => c !in s
            case Some(i) => i < |s| && s[i] == c && c !in s[..i]
  {
    if s != "" {
      IndexSplits(s[1..], c);
      assert s == [s[0]] + s[1..];
      if IndexOf(s[1..], c).Some? {
        var i := IndexOf(s[1..], c).value;
        assert s[..i + 1] == [s[0]] + s[1..][..i];
      }
    }
  }

  /** The text up to the closing quote is some quoted text, written out. */
  lemma {:induction false} DecodeQuoted(s: string, i: nat, end: nat) returns (text: seq<QuotedChar>)
    requires i <= |s| && ClosingQuote(s, i, false) == Some(end)
    ensures i <= end < |s| && s[end] == '"' && WellQuoted(text) && Encode(text) == s[i..end]
    decreases |s| - i
  {
    if s[i] == '"' {
      text := [];
      assert s[i..i] == "";
    } else if s[i] == '\\' {
      assert ClosingQuote(s, i + 1, true) == Some(end);
      var rest := DecodeQuoted(s, i + 2, end);
      text := [QuotedChar(s[i + 1], true)] + rest;
      assert text[1..] == rest;
      assert s[i..end] == [s[i], s[i + 1]] + s[i + 2..end];
    } else {
      var rest := DecodeQuoted(s, i + 1, end);
      text := [QuotedChar(s[i], false)] + rest;
      assert text[1..] == rest;
      assert s[i..end] == [s[i]] + s[i + 1..end];
    }
  }

  lemma OnlySpace(s: string)
    requires Trim(s) == ""
    ensures AllSpace(s)
  {
    var lead, trail := TrimSplits(s);
    assert s == lead + trail;
  }

  lemma SpaceShowsAtTheStart(space: string, text: string)
    requires AllSpace(space)
    ensures space != "" ==> IsSpace((space + text)[0])
  {
  }

  lemma SpaceShowsAtTheEnd(text: string, space: string)
    requires AllSpace(space)
    ensures space != "" ==> IsSpace((text + space)[|text + space| - 1])
  {
  }

  /** A value that parses is a token or a quoted-string. */
  lemma ValueSplits(rawValue: string) returns (spelling: Spelling)
    requires SolidEnds(rawValue) && ParseValue(rawValue).Some?
    ensures !spelling.Bare? && PrintValue(spelling) == rawValue
    ensures spelling.TokenValue? ==> IsToken(spelling.token)
    ensures spelling.QuotedValue? ==> WellQuoted(spelling.text)
  {
    if rawValue[0] == '"' {
      var end := ClosingQuote(rawValue, 1, false).value;
      var text := DecodeQuoted(rawValue, 1, end);
      OnlySpace(rawValue[end + 1..]);
      SpaceShowsAtTheEnd(rawValue[..end + 1], rawValue[end + 1..]);
      assert rawValue == rawValue[..end + 1] + rawValue[end + 1..];
      spelling := QuotedValue(text);
      assert rawValue == ['"'] + (rawValue[1..end] + ['"']);
    } else {
      spelling := TokenValue(rawValue);
    }
  }

  /** The pieces around `=`: what trimming leaves reaches the solid outer ends. */
  lemma LeftOfEquals(left: string, right: string) returns (pad: string)
    requires SolidEnds(left + (['='] + right)) && Trim(left) != ""
    ensures AllSpace(pad) && left == Trim(left) + pad
  {
    var lead, trail := TrimSplits(left);
    assert (left + (['='] + right))[0] == left[0];
    SpaceShowsAtTheStart(lead, Trim(left) + trail);
    pad := trail;
    assert "" + (Trim(left) + trail) == Trim(left) + trail;
  }

  lemma RightOfEquals(left: string, right: string) returns (pad: string)
    requires SolidEnds(left + (['='] + right)) && Trim(right) != ""
    ensures AllSpace(pad) && right == pad + Trim(right) && SolidEnds(Trim(right))
  {
    var lead, trail := TrimSplits(right);
    var whole := left + (['='] + right);
    assert whole[|whole| - 1] == right[|right| - 1];
    SpaceShowsAtTheEnd(lead + Trim(right), trail);
    assert right == (lead + Trim(right)) + trail;
    pad := lead;
    assert Trim(right) + "" == Trim(right);
  }

  /** A member that parses is written legally. */
  lemma ParsedIsWritten(raw: string) returns (w: Written)
    requires ParseMember(raw).Some?
    ensures Legal(w) && Print(w) == raw
  {
    var member := Trim(raw);
    var lead, trail := TrimSplits(raw);
    var equals := IndexOf(member, '=');
    IndexSplits(member, '=');
    hide IsToken, AllSpace, IsSpace, Trim, IndexOf, Lower, SolidEnds;
    if equals.None? {
      var inner, outer := TrimSplits(member);
      w := BareMember(raw, member, lead, trail);
    } else {
      w := ValuedMember(raw, member, equals.value, lead, trail);
    }
  }

  lemma TrimOfSolid(s: string)
    requires SolidEnds(s)
    ensures Trim(s) == s
  {
    TrimPadded("", s, "");
    assert s + "" == s && "" + s == s;
  }

  lemma BareMember(raw: string, member: string, lead: string, trail: string) returns (w: Written)
    requires raw == lead + (member + trail) && AllSpace(lead) && AllSpace(trail) && SolidEnds(member)
    requires IsToken(Trim(member))
    ensures Legal(w) && Print(w) == raw
  {
    TrimOfSolid(member);
    w := Written(member, Bare, lead, "", "", trail);
  }

  lemma ValuedMember(raw: string, member: string, e: nat, lead: string, trail: string) returns (w: Written)
    requires raw == lead + (member + trail) && AllSpace(lead) && AllSpace(trail) && SolidEnds(member)
    requires e < |member| && member[e] == '=' && IsToken(Trim(member[..e])) && ParseValue(Trim(member[e + 1..])).Some?
    ensures Legal(w) && Print(w) == raw
  {
    var left, right := member[..e], member[e + 1..];
    assert member == left + (['='] + right);
    var name, rawValue := Trim(left), Trim(right);
    EmptyValueFails();
    hide Trim, ParseValue, IsSpace, SolidEnds;
    var before := LeftOfEquals(left, right);
    var afterwards := RightOfEquals(left, right);
    var spelling := ValueSplits(rawValue);
    w := Written(name, spelling, lead, before, afterwards, trail);
    assert PrintCore(w) == left + (['='] + right);
  }

  lemma EmptyValueFails()
    ensures ParseValue("").None?
  {
  }

  /**
   A member contributes a directive exactly when it is written legally, and then the directive it
   stands for: nothing malformed is read, not even in part.
   */
  lemma ParsedIff(raw: string, directive: Directive)
    ensures ParseMember(raw) == Some(directive) <==> exists w :: Legal(w) && Print(w) == raw && Meaning(w) == directive
  {
    hide Legal, Print, Meaning, ParseMember;
    if ParseMember(raw) == Some(directive) {
      var w := ParsedIsWritten(raw);
      ParseOfPrint(w);
    }
    if w :| Legal(w) && Print(w) == raw && Meaning(w) == directive {
      ParseOfPrint(w);
    }
  }
}
