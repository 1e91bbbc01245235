// POSIX paths as text, with Node's split, normalise, join, resolve and relative spelled out over a
// stack of segments. Everything the staging code does to a path is one of these.
module Paths {
  import Strings

  const SLASH: string := "/"
  const DOT: string := "."
  const UP: string := ".."

  predicate SlashFree(segment: string) {
    '/' !in segment
  }

  predicate AllSlashFree(segments: seq<string>) {
    forall i :: 0 <= i < |segments| ==> SlashFree(segments[i])
  }

  /** `text.split("/")` */
  function Split(text: string): (segments: seq<string>)
    ensures |segments| > 0 && AllSlashFree(segments)
  {
    Strings.Split(text, '/')
  }

  /** `segments.join("/")` */
  function Joined(segments: seq<string>): string {
    Strings.Join(segments, SLASH)
  }

  lemma SplitSlashFree(segment: string)
    requires SlashFree(segment)
    ensures Split(segment) == [segment]
  {
    Strings.SplitWithoutSeparator(segment, '/');
  }

  lemma SplitConcat(a: string, b: string)
    ensures Split(a + SLASH + b) == Split(a) + Split(b)
  {
    Strings.SplitOfConcat(a, b, '/');
  }

  lemma SplitJoined(segments: seq<string>)
    requires segments != [] && AllSlashFree(segments)
    ensures Split(Joined(segments)) == segments
  {
    Strings.SplitOfJoin(segments, '/');
  }

  lemma JoinedSplit(text: string)
    ensures Joined(Split(text)) == text
  {
    Strings.JoinOfSplit(text, '/');
  }

  lemma JoinedConcat(a: seq<string>, b: seq<string>)
    requires a != [] && b != []
    ensures Joined(a + b) == Joined(a) + SLASH + Joined(b)
  {
    Strings.JoinOfConcat(a, b, SLASH);
  }

  /** A directory followed by a slash starts a text exactly when its segments start the text's. */
  lemma UnderIffSegments(directory: string, text: string)
    ensures directory + SLASH <= text
       <==> |Split(directory)| < |Split(text)| && Split(directory) <= Split(text)
  {
    if directory + SLASH <= text {
      var rest := text[|directory| + 1..];
      assert text == directory + SLASH + rest;
      SplitConcat(directory, rest);
    }
    if |Split(directory)| < |Split(text)| && Split(directory) <= Split(text) {
      var rest := Split(text)[|Split(directory)|..];
      assert Split(text) == Split(directory) + rest;
      JoinedConcat(Split(directory), rest);
      JoinedSplit(directory);
      JoinedSplit(text);
    }
  }

  // ---- The segment stack --------------------------------------------------------------------

  predicate IsAbsolute(text: string) {
    text != "" && text[0] == '/'
  }

  /** One segment of `normalizeString`: only a relative path keeps a `..` it cannot pop. */
  function Push(absolute: bool, stack: seq<string>, segment: string): seq<string> {
    if segment == "" || segment == DOT then
      stack
    else if segment != UP then
      stack + [segment]
    else if stack != [] && stack[|stack| - 1] != UP then
      stack[..|stack| - 1]
    else if absolute then
      stack
    else
      stack + [UP]
  }

  function Walk(absolute: bool, base: seq<string>, segments: seq<string>): seq<string> {
    if segments == [] then
      base
    else
      var last := |segments| - 1;
      Push(absolute, Walk(absolute, base, segments[..last]), segments[last])
  }

  /** The stack a text normalises to. */
  function Stack(text: string): seq<string> {
    Walk(IsAbsolute(text), [], Split(text))
  }

  predicate Plain(segment: string) {
    segment != "" && segment != DOT && SlashFree(segment)
  }

  /** What a normalised path is made of: `..` only as a leading run, and never when absolute. */
  predicate Canonical(absolute: bool, stack: seq<string>) {
    && (forall i :: 0 <= i < |stack| ==> Plain(stack[i]))
    && (absolute ==> UP !in stack)
    && (forall i :: 0 < i < |stack| && stack[i] == UP ==> stack[i - 1] == UP)
  }

  /** The stack does not climb out of the directory it is relative to. */
  predicate Inside(stack: seq<string>) {
    stack != [] ==> stack[0] != UP
  }

  lemma {:induction false} WalkIsCanonical(absolute: bool, base: seq<string>, segments: seq<string>)
    requires Canonical(absolute, base) && AllSlashFree(segments)
    ensures Canonical(absolute, Walk(absolute, base, segments))
  {
    if segments != [] {
      WalkIsCanonical(absolute, base, segments[..|segments| - 1]);
    }
  }

  lemma {:induction false} WalkConcat(absolute: bool, base: seq<string>, a: seq<string>, b: seq<string>)
    ensures Walk(absolute, base, a + b) == Walk(absolute, Walk(absolute, base, a), b)
  {
    if b == [] {
      assert a + b == a;
    } else {
      assert (a + b)[..|a + b| - 1] == a + b[..|b| - 1];
      WalkConcat(absolute, base, a, b[..|b| - 1]);
    }
  }

  /** A canonical stack walks to itself. */
  lemma {:induction false} CanonicalIsFixed(absolute: bool, stack: seq<string>)
    requires Canonical(absolute, stack)
    ensures Walk(absolute, [], stack) == stack
  {
    if stack != [] {
      var front := stack[..|stack| - 1];
      CanonicalIsFixed(absolute, front);
      assert front + [stack[|stack| - 1]] == stack;
    }
  }

  lemma NoUpInside(absolute: bool, stack: seq<string>)
    requires Canonical(absolute, stack) && Inside(stack)
    ensures UP !in stack
  {
    if UP in stack {
      var i :| 0 <= i < |stack| && stack[i] == UP;
      while i > 0
        invariant 0 <= i < |stack| && stack[i] == UP
      {
        i := i - 1;
      }
      assert false;
    }
  }

  lemma PushExtendsBase(absolute: bool, base: seq<string>, under: seq<string>, segment: string)
    requires UP !in under && Inside(Push(false, under, segment))
    ensures Push(absolute, base + under, segment) == base + Push(false, under, segment)
  {
    if under == [] {
      assert base + under == base;
    } else {
      assert under[|under| - 1] in under;
      assert (base + under)[..|base + under| - 1] == base + under[..|under| - 1];
      assert (base + under)[|base + under| - 1] == under[|under| - 1];
    }
    assert base + under + [segment] == base + (under + [segment]);
  }

  /** Once the bottom of a relative stack is `..` it stays there. */
  lemma PushKeepsClimb(under: seq<string>, segment: string)
    requires !Inside(under)
    ensures !Inside(Push(false, under, segment))
  {
  }

  /**
   * Segments that stay inside on their own stay above any base: the bottom of the stack, once it
   * is `..`, is never popped, so no prefix of the segments climbed out either.
   */
  lemma {:induction false} InsideExtendsBase(absolute: bool, base: seq<string>, segments: seq<string>)
    requires AllSlashFree(segments)
    requires Inside(Walk(false, [], segments))
    ensures Walk(absolute, base, segments) == base + Walk(false, [], segments)
  {
    hide Push, Inside, Canonical;
    if segments != [] {
      var front := segments[..|segments| - 1];
      var under := Walk(false, [], front);
      WalkIsCanonical(false, [], front);
      if !Inside(under) {
        PushKeepsClimb(under, segments[|segments| - 1]);
      }
      InsideExtendsBase(absolute, base, front);
      NoUpInside(false, under);
      PushExtendsBase(absolute, base, under, segments[|segments| - 1]);
    }
  }

  /** Without `..` nothing is popped. */
  lemma {:induction false} NoUpExtendsBase(absolute: bool, base: seq<string>, segments: seq<string>)
    requires UP !in segments
    ensures base <= Walk(absolute, base, segments)
  {
    if segments != [] {
      NoUpExtendsBase(absolute, base, segments[..|segments| - 1]);
    }
  }

  // ---- Node's path functions ----------------------------------------------------------------

  /** `"/" + segments`, the text of a resolved absolute path. */
  function AbsoluteText(stack: seq<string>): string {
    SLASH + Joined(stack)
  }

  predicate EndsWithSlash(text: string) {
    text != "" && text[|text| - 1] == '/'
  }

  function SlashIf(present: bool): string {
    if present then SLASH else ""
  }

  /** The empty segment an outer slash leaves behind when the text is split. */
  function MarkIf(present: bool): seq<string> {
    if present then [""] else []
  }

  /** `path.normalize`: a trailing slash survives. */
  function Normalize(text: string): string {
    var stack := Stack(text);
    if stack == [] then
      if IsAbsolute(text) then SLASH else if EndsWithSlash(text) then "./" else DOT
    else
      SlashIf(IsAbsolute(text)) + Joined(stack) + SlashIf(EndsWithSlash(text))
  }

  function NonEmpty(parts: seq<string>): (kept: seq<string>)
    ensures forall part :: part in kept <==> part in parts && part != ""
  {
    if parts == [] then
      []
    else
      (if parts[0] == "" then [] else [parts[0]]) + NonEmpty(parts[1..])
  }

  /** `path.join(...parts)`: empty parts are skipped, and the rest is normalised. */
  function PathJoin(parts: seq<string>): string {
    var kept := NonEmpty(parts);
    if kept == [] then DOT else Normalize(Joined(kept))
  }

  /** `path.resolve(directory, text)` for an absolute directory. */
  function Resolve(directory: string, text: string): string {
    if IsAbsolute(text) then AbsoluteText(Stack(text))
    else AbsoluteText(Walk(true, Stack(directory), Split(text)))
  }

  function CommonLength(a: seq<string>, b: seq<string>): (n: nat)
    ensures n <= |a| && n <= |b| && a[..n] == b[..n]
    ensures n < |a| && n < |b| ==> a[n] != b[n]
  {
    if a != [] && b != [] && a[0] == b[0] then 1 + CommonLength(a[1..], b[1..]) else 0
  }

  /** `path.relative(from, to)` for absolute texts. */
  function Relative(from: string, to: string): string {
    var source, target := Stack(from), Stack(to);
    var common := CommonLength(source, target);
    Joined(seq(|source| - common, _ => UP) + target[common..])
  }

  // ---- What normalising keeps ---------------------------------------------------------------

  lemma AbsoluteTextSplits(stack: seq<string>)
    requires AllSlashFree(stack)
    ensures Split(AbsoluteText(stack)) == [""] + (if stack == [] then [""] else stack)
  {
    assert AbsoluteText(stack) == "" + SLASH + Joined(stack);
    SplitConcat("", Joined(stack));
    if stack != [] {
      SplitJoined(stack);
    }
  }

  lemma SplitTrailing(text: string, slash: bool)
    ensures Split(text + SlashIf(slash)) == Split(text) + MarkIf(slash)
  {
    hide Split;
    if slash {
      SplitConcat(text, "");
      SplitSlashFree("");
      assert text + SLASH + "" == text + SLASH;
    } else {
      assert text + "" == text && Split(text) + [] == Split(text);
    }
  }

  lemma SplitLeading(slash: bool, text: string)
    ensures Split(SlashIf(slash) + text) == MarkIf(slash) + Split(text)
  {
    hide Split;
    if slash {
      SplitConcat("", text);
      SplitSlashFree("");
      assert "" + SLASH + text == SLASH + text;
    } else {
      assert "" + text == text && [] + Split(text) == Split(text);
    }
  }

  /** The segments of a normalised text: its stack, with the marks of the outer slashes. */
  lemma NormalizeSplits(text: string)
    requires Stack(text) != []
    ensures Split(Normalize(text))
         == MarkIf(IsAbsolute(text)) + Stack(text) + MarkIf(EndsWithSlash(text))
  {
    hide Walk, Split, Joined, Push;
    var middle := Joined(Stack(text));
    WalkIsCanonical(IsAbsolute(text), [], Split(text));
    SplitJoined(Stack(text));
    SplitTrailing(middle, EndsWithSlash(text));
    SplitLeading(IsAbsolute(text), middle + SlashIf(EndsWithSlash(text)));
    Strings.ConcatAssociative(SlashIf(IsAbsolute(text)), middle, SlashIf(EndsWithSlash(text)));
    Strings.ConcatAssociative(MarkIf(IsAbsolute(text)), Stack(text), MarkIf(EndsWithSlash(text)));
  }

  lemma NormalizeIsAbsolute(text: string)
    ensures IsAbsolute(Normalize(text)) == IsAbsolute(text)
  {
    var stack := Stack(text);
    WalkIsCanonical(IsAbsolute(text), [], Split(text));
    if stack != [] {
      assert Plain(stack[0]);
      assert stack[0][0] in stack[0];
      assert Joined(stack)[0] == stack[0][0];
    }
  }

  /** The outer empty segments do not matter to the walk. */
  lemma WalkIgnoresEmptyEnds(absolute: bool, stack: seq<string>, leading: bool, trailing: bool)
    requires Canonical(absolute, stack)
    ensures Walk(absolute, [], MarkIf(leading) + stack + MarkIf(trailing)) == stack
  {
    CanonicalIsFixed(absolute, stack);
    var front := MarkIf(leading) + stack;
    if leading {
      WalkConcat(absolute, [], [""], stack);
      assert Walk(absolute, [], [""]) == [];
    } else {
      assert front == stack;
    }
    if trailing {
      WalkConcat(absolute, [], front, [""]);
      assert [""][..0] == [];
    } else {
      assert front + [] == front;
    }
  }

  lemma EmptyStacks()
    ensures Stack(SLASH) == [] && Stack(DOT) == [] && Stack("./") == []
  {
    SplitConcat("", "");
    SplitConcat(DOT, "");
    SplitSlashFree(DOT);
    assert "" + SLASH + "" == SLASH && DOT + SLASH + "" == "./";
    assert [".", ""][..1] == ["."] && ["", ""][..1] == [""] && [""][..0] == [] && ["."][..0] == [];
  }

  /** Normalising keeps the meaning of a path: its stack is unchanged. */
  lemma NormalizeKeepsStack(text: string)
    ensures Stack(Normalize(text)) == Stack(text)
  {
    NormalizeIsAbsolute(text);
    if Stack(text) != [] {
      hide Walk, Split, Joined;
      WalkIsCanonical(IsAbsolute(text), [], Split(text));
      NormalizeSplits(text);
      WalkIgnoresEmptyEnds(IsAbsolute(text), Stack(text), IsAbsolute(text), EndsWithSlash(text));
    } else {
      EmptyStacks();
    }
  }

  lemma AbsoluteTextKeepsStack(stack: seq<string>)
    requires Canonical(true, stack)
    ensures Stack(AbsoluteText(stack)) == stack
  {
    AbsoluteTextSplits(stack);
    if stack == [] {
      assert [""] + [""] == ["", ""] && ["", ""][..1] == [""] && [""][..0] == [];
    } else {
      WalkIgnoresEmptyEnds(true, stack, true, false);
      assert [""] + stack + [] == [""] + stack;
    }
  }

  lemma RootSplits()
    ensures Split(SLASH) == ["", ""]
  {
    SplitTrailing("", true);
    assert "" + SLASH == SLASH;
  }

  lemma JoinIsNormalized(directory: string, text: string) returns (joined: string)
    requires IsAbsolute(directory)
    ensures joined == if text == "" then directory else directory + SLASH + text
    ensures IsAbsolute(joined) && PathJoin([directory, text]) == Normalize(joined)
    ensures Stack(Normalize(joined)) == Stack(joined)
  {
    joined := if text == "" then directory else directory + SLASH + text;
    assert [directory, text][1..] == [text] && [text][1..] == [];
    assert NonEmpty([text]) == if text == "" then [] else [text];
    assert NonEmpty([directory, text]) == [directory] + NonEmpty([text]);
    if text != "" {
      JoinedConcat([directory], [text]);
    }
    assert Joined([directory]) == directory && Joined([text]) == text;
    NormalizeKeepsStack(joined);
  }

  /** Joining to an absolute directory walks the second text from the directory's stack. */
  lemma JoinWalksOn(directory: string, text: string)
    requires IsAbsolute(directory)
    ensures IsAbsolute(PathJoin([directory, text]))
    ensures Stack(PathJoin([directory, text])) == Walk(true, Stack(directory), Split(text))
  {
    var joined := JoinIsNormalized(directory, text);
    NormalizeIsAbsolute(joined);
    if text == "" {
      assert [""][..0] == [];
    } else {
      SplitConcat(directory, text);
      WalkConcat(true, [], Split(directory), Split(text));
    }
  }

  // ---- On literal texts -----------------------------------------------------------------------

  /** Normalising keeps whether a path is absolute and whether it ends with a slash; the root is all slash. */
  lemma NormalizeKeepsOuterSlashes(text: string)
    ensures IsAbsolute(Normalize(text)) <==> IsAbsolute(text)
    ensures EndsWithSlash(Normalize(text)) <==> EndsWithSlash(text) || Normalize(text) == "/"
  {
    NormalizeIsAbsolute(text);
    hide Walk, Split, Joined, Push;
    WalkIsCanonical(IsAbsolute(text), [], Split(text));
    if Stack(text) != [] {
      JoinedEndsPlainly(Stack(text));
    }
  }

  lemma JoinedEndsPlainly(segments: seq<string>)
    requires segments != [] && forall i :: 0 <= i < |segments| ==> Plain(segments[i])
    ensures Joined(segments) != "" && !EndsWithSlash(Joined(segments))
  {
    hide Joined, Split;
    SplitJoined(segments);
    SplitSlashFree("");
    var text := Joined(segments);
    assert text == "" ==> segments == [""];
    assert "" !in segments;
    SlashLeavesEmptySegment(text);
  }

  lemma SlashLeavesEmptySegment(text: string)
    ensures EndsWithSlash(text) ==> "" in Split(text)
  {
    hide Split;
    if EndsWithSlash(text) {
      assert text == text[..|text| - 1] + SLASH + "";
      SplitConcat(text[..|text| - 1], "");
      SplitSlashFree("");
    }
  }

  /** One dot stays, two dots undo one name: entering a directory and leaving it leads back. */
  lemma DotsStayAndUndo(text: string, name: string)
    requires text != "" && SlashFree(name) && name != "" && name != "." && name != ".."
    ensures Stack(text + "/") == Stack(text) && Stack(text + "/.") == Stack(text)
    ensures Stack(text + "/" + name) == Stack(text) + [name]
    ensures Stack(text + "/" + name + "/..") == Stack(text)
  {
    StackOfChild(text, "");
    StackOfChild(text, ".");
    StackOfChild(text, name);
    var inner := text + "/" + name;
    StackOfChild(inner, "..");
    assert text + "/" + "" == text + "/" && text + "/" + "." == text + "/.";
    assert inner + "/" + ".." == inner + "/..";
    hide Stack;
  }

  lemma StackOfChild(text: string, segment: string)
    requires text != "" && SlashFree(segment)
    ensures Stack(text + "/" + segment) == Push(IsAbsolute(text), Stack(text), segment)
  {
    hide Split, Push;
    SplitConcat(text, segment);
    SplitSlashFree(segment);
    assert (Split(text) + [segment])[..|Split(text)|] == Split(text);
  }

  /** Above a relative path's start two dots pile up; above the root they are lost. */
  lemma DotsAboveTheStart()
    ensures Stack("..") == [".."] && Stack("../..") == ["..", ".."] && Stack("/..") == []
  {
    OneUp();
    hide Stack;
    StackOfChild("..", "..");
    assert ".." + "/" + ".." == "../..";
    assert [".."] + [".."] == ["..", ".."];
  }

  lemma OneUp()
    ensures Stack("..") == [".."] && Stack("/..") == []
  {
    hide Split;
    SplitSlashFree("..");
    SplitConcat("", "..");
    SplitSlashFree("");
    assert "" + SLASH + ".." == "/..";
    assert [""] + [".."] == ["", ".."];
    hide Walk;
    WalkOne(false, "..");
    WalkOne(true, "");
    WalkConcat(true, [], [""], [".."]);
    WalkOne(true, "..");
  }

  lemma WalkOne(absolute: bool, segment: string)
    ensures Walk(absolute, [], [segment]) == Push(absolute, [], segment)
  {
    assert [segment][..0] == [];
  }
}
