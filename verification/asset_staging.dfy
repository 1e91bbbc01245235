/** Where a traced asset lands in a Docker build context, and why it cannot land anywhere else. */
module AssetStaging {
  import opened Paths

  const EXTERNAL_ASSET_DIR: string := ".adapter-k8s-external"
  const NODE_MODULES: string := "node_modules"

  predicate EscapesContext(text: string) {
    var normalized := Normalize(text);
    IsAbsolute(normalized) || normalized == UP || UP + SLASH <= normalized
  }

  /** `text === directory || text.startsWith(directory + path.sep)` */
  predicate TextuallyUnder(directory: string, text: string) {
    text == directory || directory + SLASH <= text
  }

  function LastIndexOf(segments: seq<string>, wanted: string): (index: int)
    ensures -1 <= index < |segments|
    ensures index == -1 <==> wanted !in segments
    ensures index >= 0 ==> segments[index] == wanted
    ensures forall later :: index < later < |segments| ==> segments[later] != wanted
  {
    if segments == [] then -1
    else if segments[|segments| - 1] == wanted then |segments| - 1
    else LastIndexOf(segments[..|segments| - 1], wanted)
  }

  /** `segments.filter((s) => s !== ".." && s !== "." && s !== "")` */
  function Named(segments: seq<string>): seq<string> {
    if segments == [] then
      []
    else
      var dropped := segments[0] == UP || segments[0] == DOT || segments[0] == "";
      (if dropped then [] else [segments[0]]) + Named(segments[1..])
  }

  function RebasedKey(key: string): string {
    var segments := Split(Normalize(key));
    var lastNodeModules := LastIndexOf(segments, NODE_MODULES);
    if lastNodeModules == -1 then
      PathJoin([EXTERNAL_ASSET_DIR] + Named(segments))
    else
      PathJoin(segments[lastNodeModules..])
  }

  function AssetDestPath(projectDir: string, key: string, asset: string): string {
    var abs := if IsAbsolute(asset) then asset else Resolve(projectDir, asset);
    if TextuallyUnder(projectDir, abs) then Relative(projectDir, abs)
    else if !EscapesContext(key) then Normalize(key)
    else RebasedKey(key)
  }

  /** `assertStagedWithin(stageDir, path.join(stageDir, dest), dest)` does not throw. */
  predicate BackstopAccepts(stageDir: string, dest: string) {
    TextuallyUnder(stageDir, PathJoin([stageDir, dest]))
  }

  /** An absolute directory in the form `path.resolve` gives it. */
  predicate ResolvedDirectory(directory: string) {
    IsAbsolute(directory) && directory == AbsoluteText(Stack(directory))
  }

  // ---- The text tests, in terms of stacks ---------------------------------------------------

  lemma EscapesIff(text: string)
    ensures EscapesContext(text) <==> IsAbsolute(text) || !Inside(Stack(text))
  {
    hide Walk, Split, Push;
    var normalized := Normalize(text);
    NormalizeIsAbsolute(text);
    SplitSlashFree(UP);
    UnderIffSegments(UP, normalized);
    if !IsAbsolute(text) && Stack(text) != [] {
      NormalizeSplits(text);
      var segments := Split(normalized);
      assert segments == Stack(text) + MarkIf(EndsWithSlash(text));
      assert segments[0] == Stack(text)[0];
      JoinedSplit(normalized);
      if segments[0] == UP {
        assert [UP] <= segments;
        if |segments| == 1 {
          assert segments == [UP];
          assert Joined([UP]) == UP;
        }
      }
    }
  }

  lemma ResolvedIsCanonical(directory: string)
    ensures Canonical(IsAbsolute(directory), Stack(directory))
  {
    WalkIsCanonical(IsAbsolute(directory), [], Split(directory));
  }

  /** On normalised texts the textual prefix test is the segment prefix test. */
  lemma UnderIffStackPrefix(directory: string, text: string, trailing: bool)
    requires ResolvedDirectory(directory) && Stack(directory) != []
    requires IsAbsolute(text)
    requires Split(text) == (if Stack(text) == [] then ["", ""] else [""] + Stack(text) + MarkIf(trailing))
    ensures TextuallyUnder(directory, text) <==> Stack(directory) <= Stack(text)
  {
    hide Walk, Split, Push, Joined;
    var above, below := Stack(directory), Stack(text);
    ResolvedIsCanonical(directory);
    ResolvedIsCanonical(text);
    AbsoluteTextSplits(above);
    UnderIffSegments(directory, text);
    PrefixUnderMarks(above, below, trailing || below == []);
    assert Split(text) == [""] + below + MarkIf(trailing || below == []);
    if !(directory + SLASH <= text) && above <= below {
      assert Split(directory) == Split(text);
      JoinedSplit(directory);
      JoinedSplit(text);
    }
  }

  lemma PrefixUnderMarks(above: seq<string>, below: seq<string>, trailing: bool)
    requires "" !in above && "" !in below
    ensures [""] + above <= [""] + below + MarkIf(trailing) <==> above <= below
  {
    var outer, inner := [""] + above, [""] + below + MarkIf(trailing);
    if above <= below {
      var rest := below[|above|..];
      assert below == above + rest;
      assert inner == outer + (rest + MarkIf(trailing));
    } else if outer <= inner {
      if |below| < |above| {
        PrefixUnderMarksAt(above, below, trailing, |below|);
      } else {
        forall i | 0 <= i < |above| ensures above[i] == below[i] {
          PrefixUnderMarksAt(above, below, trailing, i);
        }
        assert false;
      }
    }
  }

  lemma PrefixUnderMarksAt(above: seq<string>, below: seq<string>, trailing: bool, i: nat)
    requires "" !in above && i < |above|
    requires [""] + above <= [""] + below + MarkIf(trailing)
    ensures i < |below| && above[i] == below[i]
  {
    var outer, inner := [""] + above, [""] + below + MarkIf(trailing);
    assert above[i] == outer[i + 1];
    assert outer[i + 1] == inner[i + 1];
    assert above[i] in above;
  }

  // ---- The branch for assets under the project directory -------------------------------------

  /** The stack of `path.relative`: climb out of what is not shared, then go down. */
  function RelativeStack(source: seq<string>, target: seq<string>): seq<string> {
    var common := CommonLength(source, target);
    seq(|source| - common, _ => UP) + target[common..]
  }

  lemma RelativeStackShape(source: seq<string>, target: seq<string>)
    requires Canonical(true, source) && Canonical(true, target)
    ensures Canonical(false, RelativeStack(source, target))
    ensures Inside(RelativeStack(source, target)) <==> source <= target
  {
    var common := CommonLength(source, target);
    var stack := RelativeStack(source, target);
    var climbs := |source| - common;
    forall i | 0 <= i < |stack| ensures Plain(stack[i]) && (stack[i] == UP <==> i < climbs) {
      if i >= climbs {
        assert stack[i] == target[common + i - climbs];
        assert stack[i] in target;
      }
    }
    assert source <= target ==> forall i :: 0 <= i < |source| ==> source[i] == target[i];
  }

  /** The text of a canonical relative stack has that stack, and the empty one is the empty text. */
  lemma JoinedKeepsStack(stack: seq<string>)
    requires Canonical(false, stack)
    ensures !IsAbsolute(Joined(stack)) && Stack(Joined(stack)) == stack
  {
    if stack == [] {
      assert [""][..0] == [];
    } else {
      SplitJoined(stack);
      CanonicalIsFixed(false, stack);
      assert Plain(stack[0]);
      assert stack[0][0] in stack[0];
      assert Joined(stack)[0] == stack[0][0];
    }
  }

  lemma RelativeHasRelativeStack(from: string, to: string)
    requires IsAbsolute(from) && IsAbsolute(to)
    ensures !IsAbsolute(Relative(from, to))
    ensures Stack(Relative(from, to)) == RelativeStack(Stack(from), Stack(to))
  {
    hide Walk, Split, Push, Joined;
    ResolvedIsCanonical(from);
    ResolvedIsCanonical(to);
    RelativeStackShape(Stack(from), Stack(to));
    JoinedKeepsStack(RelativeStack(Stack(from), Stack(to)));
  }

  lemma {:induction false} ClimbPops(base: seq<string>, climbs: nat)
    requires UP !in base && climbs <= |base|
    ensures Walk(true, base, seq(climbs, _ => UP)) == base[..|base| - climbs]
  {
    if climbs > 0 {
      assert seq(climbs, _ => UP)[..climbs - 1] == seq(climbs - 1, _ => UP);
      ClimbPops(base, climbs - 1);
      var under := base[..|base| - (climbs - 1)];
      assert under[|under| - 1] in base;
      assert under[..|under| - 1] == base[..|base| - climbs];
    }
  }

  /** Resolving the relative path from its start leads back to its target. */
  lemma RelativeRoundTrip(from: string, to: string)
    requires IsAbsolute(from) && IsAbsolute(to)
    ensures Stack(PathJoin([from, Relative(from, to)])) == Stack(to)
  {
    hide Walk, Split, Push, Joined, PathJoin;
    var source, target := Stack(from), Stack(to);
    var common := CommonLength(source, target);
    var ups, down := seq(|source| - common, _ => UP), target[common..];
    ResolvedIsCanonical(from);
    ResolvedIsCanonical(to);
    JoinWalksOn(from, Relative(from, to));
    RelativeStackShape(source, target);
    WalkOfJoined(source, ups + down);
    WalkConcat(true, source, ups, down);
    ClimbPops(source, |ups|);
    PlainExtends(true, source[..common], down);
    assert source[..common] + down == target;
  }

  lemma WalkOfJoined(base: seq<string>, stack: seq<string>)
    requires Canonical(false, stack)
    ensures Walk(true, base, Split(Joined(stack))) == Walk(true, base, stack)
  {
    if stack == [] {
      assert [""][..0] == [];
    } else {
      SplitJoined(stack);
    }
  }

  lemma {:induction false} PlainExtends(absolute: bool, base: seq<string>, names: seq<string>)
    requires UP !in names && forall i :: 0 <= i < |names| ==> Plain(names[i])
    ensures Walk(absolute, base, names) == base + names
  {
    if names != [] {
      var front := names[..|names| - 1];
      PlainExtends(absolute, base, front);
      assert names[|names| - 1] in names;
      assert base + names == base + front + [names[|names| - 1]];
    } else {
      assert base + names == base;
    }
  }

  // ---- The branch for keys that escape -------------------------------------------------------

  /** Joining parts that hold no `..` gives the non-empty ones, in order. */
  lemma JoinOfPlainParts(parts: seq<string>)
    requires NonEmpty(parts) != [] && UP !in parts
    requires forall part :: part in parts && part != "" ==> Plain(part)
    ensures !IsAbsolute(PathJoin(parts)) && Stack(PathJoin(parts)) == NonEmpty(parts)
  {
    hide Walk, Split, Push, Joined, NonEmpty;
    var kept := NonEmpty(parts);
    forall i | 0 <= i < |kept| ensures Plain(kept[i]) {
      assert kept[i] in kept;
    }
    JoinedKeepsStack(kept);
    NormalizeKeepsStack(Joined(kept));
    NormalizeIsAbsolute(Joined(kept));
  }

  lemma {:induction false} NonEmptyOfNames(names: seq<string>, trailing: bool)
    requires "" !in names
    ensures NonEmpty(names + MarkIf(trailing)) == names
  {
    if names == [] {
      assert names + MarkIf(trailing) == MarkIf(trailing);
    } else {
      assert (names + MarkIf(trailing))[1..] == names[1..] + MarkIf(trailing);
      assert names[0] in names;
      NonEmptyOfNames(names[1..], trailing);
    }
  }

  lemma {:induction false} NamedHolds(segments: seq<string>)
    requires AllSlashFree(segments)
    ensures forall i :: 0 <= i < |Named(segments)| ==> Plain(Named(segments)[i]) && Named(segments)[i] != UP
  {
    if segments != [] {
      NamedHolds(segments[1..]);
    }
  }

  /** In a canonical stack nothing after a name is `..`. */
  lemma {:induction false} NoUpAfterName(absolute: bool, stack: seq<string>, from: nat)
    requires Canonical(absolute, stack) && from < |stack| && stack[from] != UP
    ensures UP !in stack[from..]
    decreases |stack| - from
  {
    if from + 1 < |stack| {
      NoUpAfterName(absolute, stack, from + 1);
      assert stack[from..] == [stack[from]] + stack[from + 1..];
    }
  }

  /**
   * A rebased key is relative and never climbs: it starts at the last `node_modules` of the
   * normalised key and keeps what follows, or else lies under the external directory.
   */
  lemma RebasedKeyStaysInside(key: string)
    ensures !IsAbsolute(RebasedKey(key)) && Inside(Stack(RebasedKey(key)))
    ensures var stack, last := Stack(key), LastIndexOf(Stack(key), NODE_MODULES);
            if last >= 0 then Stack(RebasedKey(key)) == stack[last..]
            else Stack(RebasedKey(key)) == [EXTERNAL_ASSET_DIR] + Named(Split(Normalize(key)))
  {
    hide Walk, Split, Push, Joined, NonEmpty, Named, PathJoin, IsAbsolute;
    var stack := Stack(key);
    var segments := Split(Normalize(key));
    ResolvedIsCanonical(key);
    NormalizedLastIndex(key);
    var last := LastIndexOf(segments, NODE_MODULES);
    if last == -1 {
      var parts := [EXTERNAL_ASSET_DIR] + Named(segments);
      NamedHolds(segments);
      assert forall i :: 0 <= i < |parts| ==> Plain(parts[i]) && parts[i] != UP;
      NonEmptyOfNames(parts, false);
      assert parts + MarkIf(false) == parts;
      JoinOfPlainParts(parts);
    } else {
      var from := LastIndexOf(stack, NODE_MODULES);
      NoUpAfterName(IsAbsolute(key), stack, from);
      NonEmptyOfNames(stack[from..], EndsWithSlash(key));
      JoinOfPlainParts(segments[last..]);
    }
  }

  /** The last `node_modules` of the split text is that of the stack, shifted by the outer mark. */
  lemma NormalizedLastIndex(key: string)
    ensures var stack, segments := Stack(key), Split(Normalize(key));
            var last, from := LastIndexOf(segments, NODE_MODULES), LastIndexOf(stack, NODE_MODULES);
            && (last == -1 <==> from == -1)
            && (last >= 0 ==> segments[last..] == stack[from..] + MarkIf(EndsWithSlash(key)))
  {
    hide Walk, Push, Joined;
    var stack, segments := Stack(key), Split(Normalize(key));
    if stack == [] {
      SplitTrailing("", true);
      SplitTrailing(DOT, true);
      SplitSlashFree(DOT);
      SplitSlashFree("");
      assert "" + SLASH == SLASH && DOT + SLASH == "./";
      assert NODE_MODULES !in segments;
    } else {
      hide Split, Normalize;
      NormalizeSplits(key);
      SliceFromLast(IsAbsolute(key), stack, EndsWithSlash(key));
    }
  }

  lemma SliceFromLast(leading: bool, stack: seq<string>, trailing: bool)
    ensures var segments := MarkIf(leading) + stack + MarkIf(trailing);
            var last, from := LastIndexOf(segments, NODE_MODULES), LastIndexOf(stack, NODE_MODULES);
            && (last == -1 <==> from == -1)
            && (last >= 0 ==> segments[last..] == stack[from..] + MarkIf(trailing))
  {
    hide LastIndexOf;
    var segments := MarkIf(leading) + stack + MarkIf(trailing);
    var last, from := LastIndexOf(segments, NODE_MODULES), LastIndexOf(stack, NODE_MODULES);
    var shift := if leading then 1 else 0;
    assert |MarkIf(leading)| == shift;
    assert NODE_MODULES !in MarkIf(leading) && NODE_MODULES !in MarkIf(trailing);
    if last >= 0 && from >= 0 {
      assert segments[from + shift] == NODE_MODULES;
      assert stack[last - shift] == NODE_MODULES;
      assert last == from + shift;
      assert segments[last..] == stack[from..] + MarkIf(trailing);
    }
  }

  // ---- The theorems ---------------------------------------------------------------------------

  lemma ResolvedStack(directory: string, text: string)
    ensures IsAbsolute(Resolve(directory, text))
    ensures IsAbsolute(directory) ==> ResolvedDirectory(Resolve(directory, text))
    ensures !IsAbsolute(text) && IsAbsolute(directory)
        ==> Stack(Resolve(directory, text)) == Walk(true, Stack(directory), Split(text))
  {
    if IsAbsolute(directory) {
      ResolvedIsCanonical(directory);
      ResolvedIsCanonical(text);
      WalkIsCanonical(true, Stack(directory), Split(text));
      hide Walk, Split;
      AbsoluteTextKeepsStack(if IsAbsolute(text) then Stack(text) else Walk(true, Stack(directory), Split(text)));
    }
  }

  /** Text under a resolved directory, when the text holds no `..`, has a stack under it too. */
  lemma UnderWithoutUp(directory: string, text: string)
    requires ResolvedDirectory(directory) && directory + SLASH <= text && UP !in Split(text)
    ensures Stack(directory) <= Stack(text)
  {
    var rest := text[|directory| + 1..];
    assert text == directory + SLASH + rest;
    SplitConcat(directory, rest);
    WalkConcat(true, [], Split(directory), Split(rest));
    NoUpExtendsBase(true, Stack(directory), Split(rest));
  }

  lemma ResolvedHasNoUp(directory: string)
    requires ResolvedDirectory(directory)
    ensures UP !in Split(directory)
  {
    ResolvedIsCanonical(directory);
    AbsoluteTextSplits(Stack(directory));
  }

  /**
   * `assetDestPath` returns an escaping destination for exactly one family of inputs: an absolute
   * asset that is textually under the project directory while its normalised form is not. The key
   * never matters.
   */
  lemma DestinationEscapesIff(projectDir: string, key: string, asset: string)
    requires ResolvedDirectory(projectDir)
    ensures EscapesContext(AssetDestPath(projectDir, key, asset))
       <==> IsAbsolute(asset) && projectDir + SLASH <= asset && !(Stack(projectDir) <= Stack(asset))
  {
    hide Walk, Split, Push, Joined, Normalize, EscapesContext, RebasedKey, Relative, Resolve, Inside;
    var abs := if IsAbsolute(asset) then asset else Resolve(projectDir, asset);
    ResolvedStack(projectDir, asset);
    EscapesIff(AssetDestPath(projectDir, key, asset));
    if TextuallyUnder(projectDir, abs) {
      ResolvedIsCanonical(projectDir);
      ResolvedIsCanonical(abs);
      RelativeHasRelativeStack(projectDir, abs);
      RelativeStackShape(Stack(projectDir), Stack(abs));
      if !IsAbsolute(asset) && projectDir != abs {
        ResolvedHasNoUp(abs);
        UnderWithoutUp(projectDir, abs);
      }
    } else if !EscapesContext(key) {
      EscapesIff(key);
      NormalizeIsAbsolute(key);
      NormalizeKeepsStack(key);
    } else {
      RebasedKeyStaysInside(key);
    }
  }

  /** A normalised absolute asset, and any relative one, never escapes. */
  lemma NormalisedAssetNeverEscapes(projectDir: string, key: string, asset: string)
    requires ResolvedDirectory(projectDir)
    requires IsAbsolute(asset) ==> Normalize(asset) == asset
    ensures !EscapesContext(AssetDestPath(projectDir, key, asset))
  {
    hide AssetDestPath, EscapesContext, Walk, Split;
    DestinationEscapesIff(projectDir, key, asset);
    if IsAbsolute(asset) && projectDir + SLASH <= asset {
      ResolvedIsCanonical(asset);
      RootSplits();
      if Stack(asset) != [] {
        NormalizeSplits(asset);
      }
      UnderWithoutUp(projectDir, asset);
    }
  }

  /** Escaping inputs exist for every project but the root, with any key: the backstop is needed. */
  lemma UnnormalisedAssetEscapes(projectDir: string, key: string)
    requires ResolvedDirectory(projectDir) && Stack(projectDir) != []
    ensures EscapesContext(AssetDestPath(projectDir, key, projectDir + SLASH + UP))
  {
    hide AssetDestPath, EscapesContext, Split;
    var asset := projectDir + SLASH + UP;
    ResolvedIsCanonical(projectDir);
    SplitConcat(projectDir, UP);
    SplitSlashFree(UP);
    WalkConcat(true, [], Split(projectDir), [UP]);
    assert [UP][..0] == [];
    DestinationEscapesIff(projectDir, key, asset);
  }

  /** The backstop's text test accepts exactly the destinations that resolve under the stage directory. */
  lemma BackstopAcceptsIff(stageDir: string, dest: string)
    requires ResolvedDirectory(stageDir) && Stack(stageDir) != []
    ensures BackstopAccepts(stageDir, dest) <==> Stack(stageDir) <= Stack(PathJoin([stageDir, dest]))
  {
    hide Walk, Split, Push, Joined;
    JoinWalksOn(stageDir, dest);
    var joined := JoinIsNormalized(stageDir, dest);
    RootSplits();
    if Stack(joined) != [] {
      NormalizeSplits(joined);
    }
    UnderIffStackPrefix(stageDir, Normalize(joined), EndsWithSlash(joined));
  }

  /** A destination that does not escape lands below the stage directory, at its own stack. */
  lemma InsideLandsBelow(stageDir: string, dest: string)
    requires IsAbsolute(stageDir) && !EscapesContext(dest)
    ensures Stack(PathJoin([stageDir, dest])) == Stack(stageDir) + Stack(dest)
  {
    hide Walk, Split, Push, Joined, EscapesContext, PathJoin;
    EscapesIff(dest);
    JoinWalksOn(stageDir, dest);
    InsideExtendsBase(true, Stack(stageDir), Split(dest));
  }

  /**
   * Containment: for a normalised asset the staged file is below the stage directory, so the
   * backstop never fires, whatever the traced key says.
   */
  lemma StagedWithinContext(projectDir: string, stageDir: string, key: string, asset: string)
    requires ResolvedDirectory(projectDir)
    requires ResolvedDirectory(stageDir) && Stack(stageDir) != []
    requires IsAbsolute(asset) ==> Normalize(asset) == asset
    ensures var dest := AssetDestPath(projectDir, key, asset);
            && BackstopAccepts(stageDir, dest)
            && Stack(PathJoin([stageDir, dest])) == Stack(stageDir) + Stack(dest)
  {
    hide AssetDestPath, BackstopAccepts, Walk, Split, PathJoin, EscapesContext;
    var dest := AssetDestPath(projectDir, key, asset);
    NormalisedAssetNeverEscapes(projectDir, key, asset);
    InsideLandsBelow(stageDir, dest);
    BackstopAcceptsIff(stageDir, dest);
  }

  /** An asset of the project keeps its place: the destination leads from the project back to it. */
  lemma ProjectAssetKeepsItsPlace(projectDir: string, key: string, asset: string)
    requires ResolvedDirectory(projectDir)
    requires TextuallyUnder(projectDir, if IsAbsolute(asset) then asset else Resolve(projectDir, asset))
    ensures Stack(PathJoin([projectDir, AssetDestPath(projectDir, key, asset)]))
         == if IsAbsolute(asset) then Stack(asset) else Walk(true, Stack(projectDir), Split(asset))
  {
    hide Walk, Split, Push, Joined, PathJoin, Relative, Resolve, TextuallyUnder;
    var abs := if IsAbsolute(asset) then asset else Resolve(projectDir, asset);
    ResolvedStack(projectDir, asset);
    RelativeRoundTrip(projectDir, abs);
  }

  // ---- Where exactly an asset lands ------------------------------------------------------------

  /** What an asset resolves to. */
  ghost function AssetStack(projectDir: string, asset: string): seq<string> {
    if IsAbsolute(asset) then Stack(asset) else Walk(true, Stack(projectDir), Split(asset))
  }

  /** The asset is in the project; in a project at the file system's root only the root itself is. */
  ghost predicate InProject(projectDir: string, asset: string) {
    if Stack(projectDir) == [] then AssetStack(projectDir, asset) == []
    else Stack(projectDir) <= AssetStack(projectDir, asset)
  }

  lemma InProjectIff(projectDir: string, asset: string)
    requires ResolvedDirectory(projectDir)
    requires IsAbsolute(asset) ==> Normalize(asset) == asset
    ensures TextuallyUnder(projectDir, if IsAbsolute(asset) then asset else Resolve(projectDir, asset))
       <==> InProject(projectDir, asset)
  {
    hide Walk, Split, Push, Joined, Normalize;
    var abs := if IsAbsolute(asset) then asset else Resolve(projectDir, asset);
    ResolvedStack(projectDir, asset);
    ResolvedIsCanonical(abs);
    AbsoluteTextSplits(Stack(abs));
    RootSplits();
    if IsAbsolute(asset) && Stack(asset) != [] {
      NormalizeSplits(asset);
    }
    NormalizedRoot(asset);
    assert [""] + Stack(abs) + [] == [""] + Stack(abs);
    if Stack(projectDir) == [] {
      UnderRootIff(abs, IsAbsolute(asset) && EndsWithSlash(asset));
    } else {
      UnderIffStackPrefix(projectDir, abs, IsAbsolute(asset) && EndsWithSlash(asset));
    }
  }

  lemma NormalizedRoot(asset: string)
    ensures IsAbsolute(asset) && Stack(asset) == [] ==> Normalize(asset) == SLASH
  {
  }

  /** Nothing but the root starts with the root and a slash more, unless it holds an empty segment. */
  lemma UnderRootIff(text: string, trailing: bool)
    requires IsAbsolute(text)
    requires Split(text) == (if Stack(text) == [] then ["", ""] else [""] + Stack(text) + MarkIf(trailing))
    ensures AbsoluteText([]) == SLASH
    ensures TextuallyUnder(SLASH, text) <==> Stack(text) == []
  {
    hide Walk, Split, Push;
    ResolvedIsCanonical(text);
    RootSplits();
    UnderIffSegments(SLASH, text);
    JoinedSplit(text);
    JoinedSplit(SLASH);
    if Stack(text) != [] {
      assert Plain(Stack(text)[0]);
      assert Split(text)[1] == Stack(text)[0];
    }
  }

  /** The names of a stack after its leading climbs. */
  ghost predicate AfterClimbs(stack: seq<string>, names: seq<string>) {
    UP !in names && exists climbs :: 0 <= climbs <= |stack| && names == stack[climbs..] && IsClimb(stack[..climbs])
  }

  ghost predicate IsClimb(stack: seq<string>) {
    forall i :: 0 <= i < |stack| ==> stack[i] == UP
  }

  lemma {:induction false} NamedOfConcat(a: seq<string>, b: seq<string>)
    ensures Named(a + b) == Named(a) + Named(b)
  {
    if a == [] {
      assert a + b == b;
    } else {
      assert (a + b)[1..] == a[1..] + b;
      NamedOfConcat(a[1..], b);
    }
  }

  lemma {:induction false} NamedOfPlain(names: seq<string>)
    requires UP !in names && forall i :: 0 <= i < |names| ==> Plain(names[i])
    ensures Named(names) == names
  {
    if names != [] {
      assert names[0] in names;
      NamedOfPlain(names[1..]);
    }
  }

  lemma ClimbsExtend(stack: seq<string>, names: seq<string>)
    requires stack != [] && stack[0] == UP && AfterClimbs(stack[1..], names)
    ensures AfterClimbs(stack, names)
  {
    var climbs :| 0 <= climbs <= |stack[1..]| && names == stack[1..][climbs..] && IsClimb(stack[1..][..climbs]);
    assert stack[climbs + 1..] == stack[1..][climbs..];
    var front := stack[..climbs + 1];
    forall i | 0 <= i < |front| ensures front[i] == UP {
      assert i > 0 ==> stack[1..][..climbs][i - 1] == UP;
    }
    assert IsClimb(stack[..climbs + 1]);
  }

  lemma NoClimbs(stack: seq<string>)
    requires UP !in stack
    ensures AfterClimbs(stack, stack)
  {
    assert IsClimb(stack[..0]) && stack == stack[0..];
  }

  lemma CanonicalTail(absolute: bool, stack: seq<string>)
    requires Canonical(absolute, stack) && stack != []
    ensures Canonical(absolute, stack[1..])
  {
  }

  lemma {:induction false} NamedOfStack(absolute: bool, stack: seq<string>)
    requires Canonical(absolute, stack)
    ensures AfterClimbs(stack, Named(stack))
  {
    hide AfterClimbs;
    if stack == [] {
      NoClimbs(stack);
    } else if stack[0] != UP {
      NoUpAfterName(absolute, stack, 0);
      assert stack[0..] == stack;
      NamedOfPlain(stack);
      NoClimbs(stack);
    } else {
      CanonicalTail(absolute, stack);
      hide Canonical;
      NamedOfStack(absolute, stack[1..]);
      ClimbsExtend(stack, Named(stack[1..]));
      assert [] + Named(stack[1..]) == Named(stack[1..]);
    }
  }

  lemma {:induction false} NamedDropsDots(parts: seq<string>)
    requires forall i :: 0 <= i < |parts| ==> parts[i] == "" || parts[i] == DOT
    ensures Named(parts) == []
  {
    if parts != [] {
      NamedDropsDots(parts[1..]);
    }
  }

  lemma EmptyStackSplits(key: string)
    requires Stack(key) == []
    ensures forall i :: 0 <= i < |Split(Normalize(key))| ==> Split(Normalize(key))[i] == "" || Split(Normalize(key))[i] == DOT
  {
    hide Split;
    SplitTrailing("", true);
    SplitTrailing(DOT, true);
    SplitSlashFree(DOT);
    SplitSlashFree("");
    assert "" + SLASH == SLASH && DOT + SLASH == "./";
  }

  lemma NamedOfMarked(leading: bool, stack: seq<string>, trailing: bool)
    ensures Named(MarkIf(leading) + stack + MarkIf(trailing)) == Named(stack)
  {
    hide Named;
    NamedOfConcat(MarkIf(leading) + stack, MarkIf(trailing));
    NamedOfConcat(MarkIf(leading), stack);
    NamedDropsDots(MarkIf(leading));
    NamedDropsDots(MarkIf(trailing));
  }

  lemma NamedOfKey(key: string)
    ensures Named(Split(Normalize(key))) == Named(Stack(key))
    ensures AfterClimbs(Stack(key), Named(Stack(key)))
  {
    hide Split, Normalize, Named, AfterClimbs, Canonical, Stack;
    ResolvedIsCanonical(key);
    NamedOfStack(IsAbsolute(key), Stack(key));
    if Stack(key) == [] {
      EmptyStackSplits(key);
      NamedDropsDots(Split(Normalize(key)));
      NamedDropsDots(Stack(key));
    } else {
      NormalizeSplits(key);
      NamedOfMarked(IsAbsolute(key), Stack(key), EndsWithSlash(key));
    }
  }

  /**
   * An asset of the project lands at its path below the project directory; any other lands where
   * its key says; and a key that leaves the context is cut at its last node_modules, or put below
   * the external directory without its climbs.
   */
  lemma AssetLandsAt(projectDir: string, key: string, asset: string)
    requires ResolvedDirectory(projectDir)
    requires IsAbsolute(asset) ==> Normalize(asset) == asset
    ensures var dest := AssetDestPath(projectDir, key, asset);
            if InProject(projectDir, asset) then
              Stack(projectDir) + Stack(dest) == AssetStack(projectDir, asset)
            else if !IsAbsolute(key) && Inside(Stack(key)) then
              dest == Normalize(key) && Stack(dest) == Stack(key)
            else if "node_modules" in Stack(key) then
              exists last :: 0 <= last < |Stack(key)| && Stack(key)[last] == "node_modules"
                && "node_modules" !in Stack(key)[last + 1..] && Stack(dest) == Stack(key)[last..]
            else
              exists names :: AfterClimbs(Stack(key), names) && Stack(dest) == [".adapter-k8s-external"] + names
  {
    hide Walk, Split, Push, Joined, Normalize, EscapesContext, RebasedKey, Relative, Resolve, Inside, TextuallyUnder, Named, InProject;
    var abs := if IsAbsolute(asset) then asset else Resolve(projectDir, asset);
    InProjectIff(projectDir, asset);
    ResolvedStack(projectDir, asset);
    if InProject(projectDir, asset) {
      ResolvedIsCanonical(abs);
      RelativeHasRelativeStack(projectDir, abs);
      ProjectPrefix(projectDir, asset);
    } else {
      EscapesIff(key);
      NormalizeKeepsStack(key);
      if EscapesContext(key) {
        RebasedKeyStaysInside(key);
        NamedOfKey(key);
        var last := LastIndexOf(Stack(key), NODE_MODULES);
        assert last >= 0 ==> "node_modules" !in Stack(key)[last + 1..];
      }
    }
  }

  lemma ProjectPrefix(projectDir: string, asset: string)
    requires InProject(projectDir, asset)
    ensures Stack(projectDir) + RelativeStack(Stack(projectDir), AssetStack(projectDir, asset)) == AssetStack(projectDir, asset)
  {
    hide Walk, Stack;
    var above, below := Stack(projectDir), AssetStack(projectDir, asset);
    var common := CommonLength(above, below);
    assert above <= below;
    if common < |above| {
      assert false;
    }
    assert seq(|above| - common, _ => UP) == [];
    assert above + below[common..] == below;
  }
}
