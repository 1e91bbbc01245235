/**
 The one-pass walker that looks for a repeated group holding a quantifier or an alternation,
 against a definition by recursion over the regular expression's syntax tree.
 */
module RegexHazard {
  import opened Wrappers

  datatype Hazard = NestedQuantifier | Alternation

  datatype OpenGroup = OpenGroup(openIndex: int, containsAlternation: bool, containsQuantifier: bool)

  predicate StartsQuantifier(c: char) {
    c == '+' || c == '*' || c == '?' || c == '{'
  }

  predicate StartsRepetition(c: char) {
    c == '+' || c == '*' || c == '{'
  }

  // ---------------------------------------------------------------- the walker

  /** Add flags to the innermost open group, if any. */
  function Mark(groups: seq<OpenGroup>, alternation: bool, quantifier: bool): (marked: seq<OpenGroup>)
    ensures |marked| == |groups|
  {
    if |groups| == 0 then []
    else
      var top := groups[|groups| - 1];
      groups[|groups| - 1 := top.(containsAlternation := top.containsAlternation || alternation,
                                  containsQuantifier := top.containsQuantifier || quantifier)]
  }

  /** What the walk from index `i` returns, given its stack and character-class flag. */
  function Walk(value: string, i: nat, groups: seq<OpenGroup>, inClass: bool): Option<Hazard>
    decreases |value| - i
  {
    if i >= |value| then None
    else
      var c := value[i];
      if c == '\\' then Walk(value, i + 2, groups, inClass)
      else if inClass then Walk(value, i + 1, groups, c != ']')
      else if c == '[' then Walk(value, i + 1, groups, true)
      else if c == '(' then Walk(value, i + 1, groups + [OpenGroup(i, false, false)], false)
      else if |groups| == 0 then Walk(value, i + 1, groups, false)
      else if c == '|' then Walk(value, i + 1, Mark(groups, true, false), false)
      else if StartsQuantifier(c) && !(c == '?' && groups[|groups| - 1].openIndex == i - 1) then
        Walk(value, i + 1, Mark(groups, false, true), false)
      else if c != ')' then Walk(value, i + 1, groups, false)
      else
        var group := groups[|groups| - 1];
        match CloseVerdict(value, i, group)
        case Some(hazard) => Some(hazard)
        case None =>
          Walk(value, i + 1, CloseInto(groups[..|groups| - 1], group, QuantifiedAt(value, i + 1)), false)
  }

  predicate QuantifiedAt(value: string, i: nat) {
    i < |value| && StartsQuantifier(value[i])
  }

  predicate RepeatedAt(value: string, i: nat) {
    i < |value| && StartsRepetition(value[i])
  }

  function CloseVerdict(value: string, i: nat, group: OpenGroup): Option<Hazard> {
    if !RepeatedAt(value, i + 1) then None
    else if group.containsQuantifier then Some(NestedQuantifier)
    else if group.containsAlternation then Some(Alternation)
    else None
  }

  /** A closed group hands its flags, and its own quantifier, to its parent. */
  function CloseInto(parents: seq<OpenGroup>, group: OpenGroup, quantified: bool): seq<OpenGroup> {
    Mark(parents, group.containsAlternation, group.containsQuantifier || quantified)
  }

  method QuantifiedGroupHazard(value: string) returns (hazard: Option<Hazard>)
    ensures hazard == Walk(value, 0, [], false)
    ensures forall p: Pattern :: WellFormed(p) && Render(p) == value ==> hazard == FirstHazard(p)
  {
    hazard := WalkLoop(value);
    forall p: Pattern | WellFormed(p) && Render(p) == value
      ensures hazard == FirstHazard(p)
    {
      WalkerMeetsSpecification(p);
    }
  }

  method WalkLoop(value: string) returns (hazard: Option<Hazard>)
    ensures hazard == Walk(value, 0, [], false)
  {
    var groups: seq<OpenGroup> := [];
    var inCharacterClass := false;
    var i := 0;
    while i < |value|
      invariant 0 <= i
      invariant Walk(value, i, groups, inCharacterClass) == Walk(value, 0, [], false)
      decreases |value| - i
    {
      var c := value[i];
      if c == '\\' {
        i := i + 2;
        continue;
      }
      if inCharacterClass {
        if c == ']' {
          inCharacterClass := false;
        }
        i := i + 1;
        continue;
      }
      if c == '[' {
        inCharacterClass := true;
        i := i + 1;
        continue;
      }
      if c == '(' {
        groups := groups + [OpenGroup(i, false, false)];
        i := i + 1;
        continue;
      }
      if c == '|' && |groups| > 0 {
        groups := Mark(groups, true, false);
        i := i + 1;
        continue;
      }
      if |groups| > 0 && StartsQuantifier(c)
         && !(c == '?' && groups[|groups| - 1].openIndex == i - 1)
      {
        groups := Mark(groups, false, true);
        i := i + 1;
        continue;
      }
      if c != ')' || |groups| == 0 {
        i := i + 1;
        continue;
      }
      var group := groups[|groups| - 1];
      groups := groups[..|groups| - 1];
      var groupIsQuantified := QuantifiedAt(value, i + 1);
      var groupIsRepeated := RepeatedAt(value, i + 1);
      if groupIsRepeated {
        if group.containsQuantifier {
          return Some(NestedQuantifier);
        }
        if group.containsAlternation {
          return Some(Alternation);
        }
      }
      groups := CloseInto(groups, group, groupIsQuantified);
      i := i + 1;
    }
    return None;
  }

  // ---------------------------------------------------------------- syntax trees

  /** A disjunction, read left to right: terms, and bars between branches. */
  datatype Pattern =
    | End
    | Term(atom: Atom, quantifier: Quantifier, rest: Pattern)
    | Bar(rest: Pattern)

  datatype Atom =
    | Plain(c: char)
    | Escaped(c: char)
    | Class(members: seq<ClassMember>)
    | Group(prefix: Option<string>, body: Pattern)

  datatype ClassMember = Literal(c: char) | EscapedMember(c: char)

  datatype Quantifier = Once | Times(kind: Kind, isLazy: bool)

  datatype Kind = ZeroOrMore | OneOrMore | Optional | Counted(bounds: string)

  /** A character that stands for itself, or for an assertion, outside a class. */
  predicate IsPlain(c: char) {
    && c != '\\' && c != '[' && c != '(' && c != ')' && c != '|'
    && !StartsQuantifier(c)
  }

  predicate AllPlain(s: string) {
    forall i :: 0 <= i < |s| ==> IsPlain(s[i])
  }

  predicate WellFormedMember(m: ClassMember) {
    m.Literal? ==> m.c != ']' && m.c != '\\'
  }

  predicate WellFormedQuantifier(q: Quantifier) {
    q.Times? && q.kind.Counted? ==> AllPlain(q.kind.bounds)
  }

  predicate WellFormed(p: Pattern) {
    match p
    case End => true
    case Bar(rest) => WellFormed(rest)
    case Term(atom, q, rest) => WellFormedAtom(atom) && WellFormedQuantifier(q) && WellFormed(rest)
  }

  predicate WellFormedAtom(a: Atom) {
    match a
    case Plain(c) => IsPlain(c)
    case Escaped(_) => true
    case Class(members) => forall i :: 0 <= i < |members| ==> WellFormedMember(members[i])
    case Group(prefix, body) => (prefix.Some? ==> AllPlain(prefix.value)) && WellFormed(body)
  }

  function Render(p: Pattern): string {
    match p
    case End => ""
    case Bar(rest) => "|" + Render(rest)
    case Term(atom, q, rest) => RenderAtom(atom) + (RenderQuantifier(q) + Render(rest))
  }

  function RenderAtom(a: Atom): string {
    match a
    case Plain(c) => [c]
    case Escaped(c) => ['\\', c]
    case Class(members) => "[" + (RenderMembers(members) + "]")
    case Group(prefix, body) => "(" + (RenderPrefix(prefix) + (Render(body) + ")"))
  }

  /** `?:`, `?=`, `?<name>`, ...: what follows the `?` holds no special character. */
  function RenderPrefix(prefix: Option<string>): string {
    match prefix
    case None => ""
    case Some(text) => "?" + text
  }

  function RenderMembers(members: seq<ClassMember>): string {
    if |members| == 0 then ""
    else (match members[0] case Literal(c) => [c] case EscapedMember(c) => ['\\', c])
         + RenderMembers(members[1..])
  }

  function RenderKind(k: Kind): string {
    match k
    case ZeroOrMore => "*"
    case OneOrMore => "+"
    case Optional => "?"
    case Counted(bounds) => "{" + (bounds + "}")
  }

  function RenderQuantifier(q: Quantifier): string {
    match q
    case Once => ""
    case Times(kind, isLazy) => RenderKind(kind) + (if isLazy then "?" else "")
  }

  // ---------------------------------------------------------------- the specification

  /** Does a quantifier occur in the pattern, at any depth? */
  predicate HasQuantifier(p: Pattern) {
    match p
    case End => false
    case Bar(rest) => HasQuantifier(rest)
    case Term(atom, q, rest) =>
      q.Times? || (atom.Group? && HasQuantifier(atom.body)) || HasQuantifier(rest)
  }

  /** Does an alternation occur in the pattern, at any depth? */
  predicate HasAlternation(p: Pattern) {
    match p
    case End => false
    case Bar(_) => true
    case Term(atom, _, rest) => (atom.Group? && HasAlternation(atom.body)) || HasAlternation(rest)
  }

  predicate Repeats(q: Quantifier) {
    q.Times? && !q.kind.Optional?
  }

  /** The hazard of one group, from what it contains. */
  function GroupHazard(body: Pattern, q: Quantifier): Option<Hazard> {
    if !Repeats(q) then None
    else if HasQuantifier(body) then Some(NestedQuantifier)
    else if HasAlternation(body) then Some(Alternation)
    else None
  }

  /** The hazard of the first hazardous group, groups taken in the order they close. */
  function FirstHazard(p: Pattern): Option<Hazard> {
    match p
    case End => None
    case Bar(rest) => FirstHazard(rest)
    case Term(atom, q, rest) =>
      var first := AtomHazard(atom, q);
      if first.Some? then first else FirstHazard(rest)
  }

  /** Groups inside close before the group itself does. */
  function AtomHazard(atom: Atom, q: Quantifier): Option<Hazard> {
    match atom
    case Group(_, body) =>
      var inner := FirstHazard(body);
      if inner.Some? then inner else GroupHazard(body, q)
    case _ => None
  }

  /** Is some group of the pattern, at any depth, hazardous? */
  predicate HasHazardousGroup(p: Pattern) {
    match p
    case End => false
    case Bar(rest) => HasHazardousGroup(rest)
    case Term(atom, q, rest) =>
      || (atom.Group? && (GroupHazard(atom.body, q).Some? || HasHazardousGroup(atom.body)))
      || HasHazardousGroup(rest)
  }

  /** The verdict is empty only when no group anywhere is hazardous. */
  lemma {:induction false} NoHazardMeansNoHazardousGroup(p: Pattern)
    ensures FirstHazard(p).None? <==> !HasHazardousGroup(p)
  {
    match p
    case End =>
    case Bar(rest) => NoHazardMeansNoHazardousGroup(rest);
    case Term(atom, q, rest) =>
      if atom.Group? {
        NoHazardMeansNoHazardousGroup(atom.body);
      }
      NoHazardMeansNoHazardousGroup(rest);
  }

  // ---------------------------------------------------------------- agreement

  /** Does `s` stand in `value` at index `i`? */
  ghost predicate At(value: string, i: nat, s: string)
    ensures At(value, i, s) ==> i + |s| <= |value|
    decreases |s|
  {
    if |s| == 0 then i <= |value|
    else i < |value| && value[i] == s[0] && At(value, i + 1, s[1..])
  }

  lemma {:induction false} AtSplit(value: string, i: nat, a: string, b: string)
    requires At(value, i, a + b)
    ensures At(value, i, a) && At(value, i + |a|, b)
    decreases |a|
  {
    if |a| == 0 {
      assert a + b == b;
    } else {
      assert (a + b)[1..] == a[1..] + b;
      AtSplit(value, i + 1, a[1..], b);
    }
  }

  lemma AtHead(value: string, i: nat, c: char, s: string)
    requires At(value, i, [c] + s)
    ensures i < |value| && value[i] == c && At(value, i + 1, s)
  {
    assert ([c] + s)[1..] == s;
  }

  lemma {:induction false} AtWhole(value: string, i: nat)
    requires i <= |value|
    ensures At(value, i, value[i..])
    decreases |value| - i
  {
    if i < |value| {
      AtWhole(value, i + 1);
      assert value[i..][1..] == value[i + 1..];
    }
  }

  /** No open group's `(` is the character just before a position inside its contents. */
  ghost predicate OpenedBefore(groups: seq<OpenGroup>, i: int) {
    |groups| > 0 ==> groups[|groups| - 1].openIndex < i
  }

  lemma {:induction false} WalkPlain(value: string, i: nat, s: string, groups: seq<OpenGroup>)
    requires At(value, i, s) && AllPlain(s)
    ensures Walk(value, i, groups, false) == Walk(value, i + |s|, groups, false)
    decreases |s|
  {
    if |s| > 0 {
      assert s == [s[0]] + s[1..];
      AtHead(value, i, s[0], s[1..]);
      WalkPlain(value, i + 1, s[1..], groups);
    }
  }

  lemma {:induction false} WalkMembers(
      value: string, i: nat, members: seq<ClassMember>, groups: seq<OpenGroup>)
    requires forall k :: 0 <= k < |members| ==> WellFormedMember(members[k])
    requires At(value, i, RenderMembers(members) + "]")
    ensures Walk(value, i, groups, true)
         == Walk(value, i + |RenderMembers(members)| + 1, groups, false)
    decreases |members|
  {
    var tail := RenderMembers(members[if |members| == 0 then 0 else 1..]) + "]";
    if |members| == 0 {
      assert RenderMembers(members) + "]" == [']'] + "";
      AtHead(value, i, ']', "");
    } else {
      match members[0] {
        case Literal(c) =>
          assert RenderMembers(members) + "]" == [c] + tail;
          AtHead(value, i, c, tail);
          WalkMembers(value, i + 1, members[1..], groups);
        case EscapedMember(c) =>
          assert RenderMembers(members) + "]" == ['\\'] + ([c] + tail);
          AtHead(value, i, '\\', [c] + tail);
          AtHead(value, i + 1, c, tail);
          WalkMembers(value, i + 2, members[1..], groups);
      }
    }
  }

  /** Outside a group, or past the prefix position, one quantifier character only sets the flag. */
  lemma WalkQuantifierChar(value: string, i: nat, groups: seq<OpenGroup>)
    requires i < |value| && StartsQuantifier(value[i])
    requires OpenedBefore(groups, i - 1)
    requires i > 0
    ensures Walk(value, i, groups, false) == Walk(value, i + 1, Mark(groups, false, true), false)
  {
  }

  lemma MarkTwice(groups: seq<OpenGroup>, a: bool, q: bool, a': bool, q': bool)
    ensures Mark(Mark(groups, a, q), a', q') == Mark(groups, a || a', q || q')
  {
  }

  lemma MarkNothing(groups: seq<OpenGroup>)
    ensures Mark(groups, false, false) == groups
  {
  }

  lemma WalkKind(value: string, i: nat, kind: Kind, groups: seq<OpenGroup>)
    requires kind.Counted? ==> AllPlain(kind.bounds)
    requires i > 0 && At(value, i, RenderKind(kind)) && OpenedBefore(groups, i - 1)
    ensures Walk(value, i, groups, false)
         == Walk(value, i + |RenderKind(kind)|, Mark(groups, false, true), false)
  {
    match kind
    case Counted(bounds) =>
      AtHead(value, i, '{', bounds + "}");
      WalkQuantifierChar(value, i, groups);
      WalkPlain(value, i + 1, bounds + "}", Mark(groups, false, true));
    case _ =>
      assert RenderKind(kind) == [RenderKind(kind)[0]] + "";
      AtHead(value, i, RenderKind(kind)[0], "");
      WalkQuantifierChar(value, i, groups);
  }

  lemma WalkQuantifier(value: string, i: nat, q: Quantifier, groups: seq<OpenGroup>)
    requires WellFormedQuantifier(q)
    requires i > 0 && At(value, i, RenderQuantifier(q)) && OpenedBefore(groups, i - 1)
    ensures Walk(value, i, groups, false)
         == Walk(value, i + |RenderQuantifier(q)|, Mark(groups, false, q.Times?), false)
  {
    match q
    case Once =>
      MarkNothing(groups);
    case Times(kind, isLazy) =>
      AtSplit(value, i, RenderKind(kind), if isLazy then "?" else "");
      WalkKind(value, i, kind, groups);
      if isLazy {
        var j := i + |RenderKind(kind)|;
        assert "?" == ['?'] + "";
        AtHead(value, j, '?', "");
        WalkQuantifierChar(value, j, Mark(groups, false, true));
        MarkTwice(groups, false, true, false, true);
      }
  }

  ghost predicate NotQuantifiedAt(value: string, i: nat) {
    !QuantifiedAt(value, i)
  }

  /** No pattern begins with a quantifier. */
  lemma RenderStartsPlainly(p: Pattern)
    requires WellFormed(p) && |Render(p)| > 0
    ensures !StartsQuantifier(Render(p)[0])
  {
    match p
    case Term(atom, q, rest) =>
      assert |RenderAtom(atom)| > 0;
      assert Render(p)[0] == RenderAtom(atom)[0];
    case _ =>
  }

  lemma NextAfterQuantifier(value: string, i: nat, q: Quantifier, rest: Pattern)
    requires WellFormedQuantifier(q) && WellFormed(rest)
    requires At(value, i, RenderQuantifier(q)) && At(value, i + |RenderQuantifier(q)|, Render(rest))
    requires NotQuantifiedAt(value, i + |RenderQuantifier(q)| + |Render(rest)|)
    ensures QuantifiedAt(value, i) <==> q.Times?
    ensures RepeatedAt(value, i) <==> Repeats(q)
  {
    if q.Once? {
      if |Render(rest)| > 0 {
        RenderStartsPlainly(rest);
      }
    } else {
      var text := RenderQuantifier(q);
      assert text[0] == RenderKind(q.kind)[0];
    }
  }

  /** Stop with a hazard already found, or walk on from index `i`. */
  function Continue(found: Option<Hazard>, value: string, i: nat, groups: seq<OpenGroup>): Option<Hazard> {
    if found.Some? then found else Walk(value, i, groups, false)
  }

  /**
   Walking over a rendered pattern, in any context, either stops with the pattern's first hazard
   or reaches its end with the pattern's flags added to the enclosing group.
   */
  lemma {:induction false} WalkPattern(
      value: string, i: nat, p: Pattern, end: nat, groups: seq<OpenGroup>)
    requires WellFormed(p) && At(value, i, Render(p)) && end == i + |Render(p)|
    requires OpenedBefore(groups, i) && NotQuantifiedAt(value, end)
    ensures Walk(value, i, groups, false)
         == Continue(FirstHazard(p), value, end, Mark(groups, HasAlternation(p), HasQuantifier(p)))
    decreases p, 4
  {
    match p
    case End =>
      MarkNothing(groups);
    case Bar(rest) =>
      WalkBar(value, i, rest, end, groups);
    case Term(atom, q, rest) =>
      WalkTermCase(value, i, atom, q, rest, end, groups);
  }

  lemma {:induction false} WalkTermCase(
      value: string, i: nat, atom: Atom, q: Quantifier, rest: Pattern, end: nat,
      groups: seq<OpenGroup>)
    requires WellFormedAtom(atom) && WellFormedQuantifier(q) && WellFormed(rest)
    requires At(value, i, Render(Term(atom, q, rest))) && end == i + |Render(Term(atom, q, rest))|
    requires OpenedBefore(groups, i) && NotQuantifiedAt(value, end)
    ensures Walk(value, i, groups, false)
         == Continue(
              if AtomHazard(atom, q).Some? then AtomHazard(atom, q) else FirstHazard(rest), value, end,
              Mark(groups, AtomAlternation(atom) || HasAlternation(rest),
                   AtomQuantifier(atom, q) || q.Times? || HasQuantifier(rest)))
    decreases Term(atom, q, rest), 3
  {
    hide Walk, RenderAtom, RenderQuantifier, Mark, At, WellFormed, WellFormedAtom, FirstHazard, AtomHazard;
    var j := i + |RenderAtom(atom)|;
    TermLayout(value, i, atom, q, rest);
    WalkTermAndRest(value, i, j, j + |RenderQuantifier(q)|, end, atom, q, rest, groups);
  }

  lemma ThreeParts(value: string, i: nat, a: string, b: string, c: string)
    requires At(value, i, a + (b + c))
    ensures At(value, i, a) && At(value, i + |a|, b) && At(value, i + |a| + |b|, c)
  {
    AtSplit(value, i, a, b + c);
    AtSplit(value, i + |a|, b, c);
  }

  lemma TermLayout(value: string, i: nat, atom: Atom, q: Quantifier, rest: Pattern)
    requires WellFormedQuantifier(q) && WellFormed(rest)
    requires At(value, i, Render(Term(atom, q, rest)))
    requires NotQuantifiedAt(value, i + |Render(Term(atom, q, rest))|)
    ensures At(value, i, RenderAtom(atom))
    ensures At(value, i + |RenderAtom(atom)|, RenderQuantifier(q))
    ensures At(value, i + |RenderAtom(atom)| + |RenderQuantifier(q)|, Render(rest))
    ensures QuantifiedAt(value, i + |RenderAtom(atom)|) <==> q.Times?
    ensures RepeatedAt(value, i + |RenderAtom(atom)|) <==> Repeats(q)
  {
    hide RenderAtom, RenderQuantifier;
    var a, b, c := RenderAtom(atom), RenderQuantifier(q), Render(rest);
    assert Render(Term(atom, q, rest)) == a + (b + c);
    ThreeParts(value, i, a, b, c);
    NextAfterQuantifier(value, i + |a|, q, rest);
  }

  lemma {:induction false} WalkBar(
      value: string, i: nat, rest: Pattern, end: nat, groups: seq<OpenGroup>)
    requires WellFormed(rest) && At(value, i, Render(Bar(rest))) && end == i + 1 + |Render(rest)|
    requires OpenedBefore(groups, i) && NotQuantifiedAt(value, end)
    ensures Walk(value, i, groups, false)
         == Continue(FirstHazard(rest), value, end, Mark(groups, true, HasQuantifier(rest)))
    decreases rest, 5
  {
    hide FirstHazard, HasQuantifier;
    AtHead(value, i, '|', Render(rest));
    var marked := Mark(groups, true, false);
    WalkPattern(value, i + 1, rest, end, marked);
    MarkTwice(groups, true, false, HasAlternation(rest), HasQuantifier(rest));
  }

  lemma {:induction false} WalkTermAndRest(
      value: string, i: nat, j: nat, k: nat, end: nat,
      atom: Atom, q: Quantifier, rest: Pattern, groups: seq<OpenGroup>)
    requires WellFormedAtom(atom) && WellFormedQuantifier(q) && WellFormed(rest)
    requires At(value, i, RenderAtom(atom)) && j == i + |RenderAtom(atom)|
    requires At(value, j, RenderQuantifier(q)) && k == j + |RenderQuantifier(q)|
    requires At(value, k, Render(rest)) && end == k + |Render(rest)|
    requires (QuantifiedAt(value, j) <==> q.Times?) && (RepeatedAt(value, j) <==> Repeats(q))
    requires OpenedBefore(groups, i) && NotQuantifiedAt(value, end)
    ensures Walk(value, i, groups, false)
         == Continue(
              if AtomHazard(atom, q).Some? then AtomHazard(atom, q) else FirstHazard(rest), value, end,
              Mark(groups, AtomAlternation(atom) || HasAlternation(rest),
                   AtomQuantifier(atom, q) || q.Times? || HasQuantifier(rest)))
    decreases Term(atom, q, rest), 2
  {
    hide Walk, Render, RenderAtom, RenderQuantifier, At, WellFormed, WellFormedAtom, FirstHazard, AtomHazard;
    var alternation, quantifier := AtomAlternation(atom), AtomQuantifier(atom, q) || q.Times?;
    WalkTerm(value, i, j, atom, q, groups);
    var after := Mark(groups, alternation, quantifier);
    MarkTwice(groups, alternation, quantifier, HasAlternation(rest), HasQuantifier(rest));
    WalkPattern(value, k, rest, end, after);
  }

  /** One atom and its quantifier. */
  lemma {:induction false} WalkTerm(
      value: string, i: nat, j: nat, atom: Atom, q: Quantifier, groups: seq<OpenGroup>)
    requires WellFormedAtom(atom) && WellFormedQuantifier(q)
    requires At(value, i, RenderAtom(atom)) && j == i + |RenderAtom(atom)|
    requires At(value, j, RenderQuantifier(q))
    requires (QuantifiedAt(value, j) <==> q.Times?) && (RepeatedAt(value, j) <==> Repeats(q))
    requires OpenedBefore(groups, i)
    ensures Walk(value, i, groups, false)
         == Continue(AtomHazard(atom, q), value, j + |RenderQuantifier(q)|,
                     Mark(groups, AtomAlternation(atom), AtomQuantifier(atom, q) || q.Times?))
    decreases atom, 1
  {
    hide Walk, Render, RenderQuantifier, At, WellFormedAtom, AtomHazard, HasAlternation, HasQuantifier;
    var alternation, own := AtomAlternation(atom), AtomQuantifier(atom, q);
    WalkAtom(value, i, j, atom, q, groups);
    assert |RenderAtom(atom)| > 0;
    WalkQuantifier(value, j, q, Mark(groups, alternation, own));
    MarkTwice(groups, alternation, own, false, q.Times?);
  }

  /** What a closed group hands to its parent. */
  predicate AtomAlternation(atom: Atom) {
    atom.Group? && HasAlternation(atom.body)
  }

  predicate AtomQuantifier(atom: Atom, q: Quantifier) {
    atom.Group? && (HasQuantifier(atom.body) || q.Times?)
  }

  lemma {:induction false} WalkAtom(
      value: string, i: nat, j: nat, atom: Atom, q: Quantifier, groups: seq<OpenGroup>)
    requires WellFormedAtom(atom) && At(value, i, RenderAtom(atom)) && j == i + |RenderAtom(atom)|
    requires (QuantifiedAt(value, j) <==> q.Times?) && (RepeatedAt(value, j) <==> Repeats(q))
    ensures Walk(value, i, groups, false)
         == Continue(AtomHazard(atom, q), value, j,
                     Mark(groups, AtomAlternation(atom), AtomQuantifier(atom, q)))
    decreases atom, 0
  {
    if atom.Group? {
      WalkGroup(value, i, j, atom.prefix, atom.body, q, groups);
    } else {
      WalkSimpleAtom(value, i, atom, groups);
      MarkNothing(groups);
    }
  }

  lemma WalkSimpleAtom(value: string, i: nat, atom: Atom, groups: seq<OpenGroup>)
    requires !atom.Group? && WellFormedAtom(atom) && At(value, i, RenderAtom(atom))
    ensures Walk(value, i, groups, false) == Walk(value, i + |RenderAtom(atom)|, groups, false)
  {
    match atom
    case Plain(c) =>
      WalkPlain(value, i, [c], groups);
    case Escaped(c) =>
      assert ['\\', c] == ['\\'] + [c];
      AtHead(value, i, '\\', [c]);
    case Class(members) =>
      AtHead(value, i, '[', RenderMembers(members) + "]");
      WalkMembers(value, i + 1, members, groups);
    case Group(_, _) =>
  }

  lemma {:induction false} WalkGroup(
      value: string, i: nat, j: nat, prefix: Option<string>, body: Pattern, q: Quantifier,
      groups: seq<OpenGroup>)
    requires (prefix.Some? ==> AllPlain(prefix.value)) && WellFormed(body)
    requires At(value, i, RenderAtom(Group(prefix, body)))
    requires j == i + |RenderAtom(Group(prefix, body))|
    requires (QuantifiedAt(value, j) <==> q.Times?) && (RepeatedAt(value, j) <==> Repeats(q))
    ensures Walk(value, i, groups, false)
         == Continue(AtomHazard(Group(prefix, body), q), value, j,
                     Mark(groups, HasAlternation(body), HasQuantifier(body) || q.Times?))
    decreases body, 6
  {
    hide Walk, Render, RenderPrefix, Mark, At, FirstHazard, AtomHazard, WellFormed, HasQuantifier, HasAlternation;
    var before, inner := RenderPrefix(prefix), Render(body);
    assert RenderAtom(Group(prefix, body)) == "(" + (before + (inner + ")"));
    GroupLayout(value, i, before, inner);
    var start := i + 1 + |before|;
    var close := start + |inner|;
    WalkGroupParts(value, i, start, close, prefix, body, q, groups);
  }

  lemma GroupLayout(value: string, i: nat, prefix: string, body: string)
    requires At(value, i, "(" + (prefix + (body + ")")))
    ensures i + 1 + |prefix| + |body| < |value|
    ensures value[i] == '(' && At(value, i + 1, prefix) && At(value, i + 1 + |prefix|, body)
    ensures value[i + 1 + |prefix| + |body|] == ')'
  {
    AtHead(value, i, '(', prefix + (body + ")"));
    AtSplit(value, i + 1, prefix, body + ")");
    AtSplit(value, i + 1 + |prefix|, body, ")");
    AtHead(value, i + 1 + |prefix| + |body|, ')', "");
  }

  lemma {:induction false} WalkGroupParts(
      value: string, i: nat, start: nat, close: nat, prefix: Option<string>, body: Pattern,
      q: Quantifier, groups: seq<OpenGroup>)
    requires (prefix.Some? ==> AllPlain(prefix.value)) && WellFormed(body)
    requires i < close < |value| && value[i] == '(' && value[close] == ')'
    requires At(value, i + 1, RenderPrefix(prefix)) && start == i + 1 + |RenderPrefix(prefix)|
    requires At(value, start, Render(body)) && close == start + |Render(body)|
    requires QuantifiedAt(value, close + 1) <==> q.Times?
    requires RepeatedAt(value, close + 1) <==> Repeats(q)
    ensures Walk(value, i, groups, false)
         == Continue(AtomHazard(Group(prefix, body), q), value, close + 1,
                     Mark(groups, HasAlternation(body), HasQuantifier(body) || q.Times?))
    decreases body, 5
  {
    hide Render, RenderPrefix, At, HasQuantifier, HasAlternation, FirstHazard, GroupHazard, WellFormed;
    var inside := groups + [OpenGroup(i, false, false)];
    WalkPrefix(value, i, prefix, inside);
    WalkPattern(value, start, body, close, inside);
    WalkClose(value, i, close, body, q, groups);
  }

  lemma WalkClose(
      value: string, i: nat, close: nat, body: Pattern, q: Quantifier, groups: seq<OpenGroup>)
    requires close < |value| && value[close] == ')'
    requires QuantifiedAt(value, close + 1) <==> q.Times?
    requires RepeatedAt(value, close + 1) <==> Repeats(q)
    ensures Walk(value, close,
                 Mark(groups + [OpenGroup(i, false, false)], HasAlternation(body), HasQuantifier(body)),
                 false)
         == Continue(GroupHazard(body, q), value, close + 1,
                     Mark(groups, HasAlternation(body), HasQuantifier(body) || q.Times?))
  {
    var full := Mark(groups + [OpenGroup(i, false, false)], HasAlternation(body), HasQuantifier(body));
    assert full[..|full| - 1] == groups;
    assert full[|full| - 1] == OpenGroup(i, HasAlternation(body), HasQuantifier(body));
  }

  lemma WalkPrefix(value: string, i: nat, prefix: Option<string>, inside: seq<OpenGroup>)
    requires prefix.Some? ==> AllPlain(prefix.value)
    requires |inside| > 0 && inside[|inside| - 1].openIndex == i
    requires At(value, i + 1, RenderPrefix(prefix))
    ensures Walk(value, i + 1, inside, false)
         == Walk(value, i + 1 + |RenderPrefix(prefix)|, inside, false)
  {
    if prefix.Some? {
      AtHead(value, i + 1, '?', prefix.value);
      WalkPlain(value, i + 2, prefix.value, inside);
    }
  }

  /** On the text of any well-formed expression, the walker finds exactly the first hazard. */
  lemma WalkerMeetsSpecification(p: Pattern)
    requires WellFormed(p)
    ensures Walk(Render(p), 0, [], false) == FirstHazard(p)
  {
    var value := Render(p);
    AtWhole(value, 0);
    assert value[0..] == value;
    WalkPattern(value, 0, p, |value|, []);
  }

  // ---------------------------------------------------------------- literal texts

  /** A group round `body`, alone in its pattern. */
  function Wrapped(prefix: Option<string>, body: Pattern, q: Quantifier): Pattern {
    Term(Group(prefix, body), q, End)
  }

  lemma WrappedText(prefix: Option<string>, body: Pattern, q: Quantifier, text: string)
    requires WellFormed(body) && FirstHazard(body).None? && Render(body) == text
    requires WellFormedQuantifier(q) && (prefix.Some? ==> AllPlain(prefix.value))
    ensures Walk("(" + (RenderPrefix(prefix) + (text + ")")) + RenderQuantifier(q), 0, [], false) == GroupHazard(body, q)
  {
    var p := Wrapped(prefix, body, q);
    WalkerMeetsSpecification(p);
    assert Render(End) == "" && RenderQuantifier(q) + "" == RenderQuantifier(q);
    assert RenderAtom(p.atom) == "(" + (RenderPrefix(prefix) + (text + ")"));
    hide Walk, GroupHazard, RenderQuantifier;
  }

  /** One quantified character. */
  function Quantified(c: char, kind: Kind): Pattern {
    Term(Plain(c), Times(kind, false), End)
  }

  lemma QuantifiedText(c: char, kind: Kind)
    requires IsPlain(c) && (kind.Counted? ==> AllPlain(kind.bounds))
    ensures WellFormed(Quantified(c, kind)) && FirstHazard(Quantified(c, kind)).None?
    ensures Render(Quantified(c, kind)) == [c] + RenderKind(kind) && HasQuantifier(Quantified(c, kind))
  {
    assert WellFormed(End) && FirstHazard(End).None? && Render(End) == "";
    assert RenderQuantifier(Times(kind, false)) == RenderKind(kind);
    assert RenderKind(kind) + "" == RenderKind(kind);
  }

  /** A character, and its escape, in a class. */
  function ClassOf(d: char): Pattern {
    Term(Class([Literal(d), EscapedMember(d)]), Once, End)
  }

  lemma MembersText(d: char)
    ensures RenderMembers([Literal(d), EscapedMember(d)]) == [d, '\\', d]
  {
    var members := [Literal(d), EscapedMember(d)];
    assert members[1..] == [EscapedMember(d)];
    assert [EscapedMember(d)][1..] == [];
    assert RenderMembers([]) == "";
    assert RenderMembers([EscapedMember(d)]) == ['\\', d];
  }

  lemma ClassText(d: char)
    requires d != ']' && d != '\\'
    ensures WellFormed(ClassOf(d)) && FirstHazard(ClassOf(d)).None? && !HasQuantifier(ClassOf(d))
    ensures Render(ClassOf(d)) == ['[', d, '\\', d, ']']
  {
    MembersText(d);
    hide RenderMembers;
    assert Render(End) == "" && WellFormed(End) && FirstHazard(End).None? && !HasQuantifier(End);
  }

  /** An escaped character, and a class, as two branches. */
  function Branches(c: char, d: char): Pattern {
    Term(Escaped(c), Once, Bar(ClassOf(d)))
  }

  lemma BranchesText(c: char, d: char)
    requires d != ']' && d != '\\'
    ensures WellFormed(Branches(c, d)) && FirstHazard(Branches(c, d)).None?
    ensures Render(Branches(c, d)) == ['\\', c, '|', '[', d, '\\', d, ']']
    ensures HasAlternation(Branches(c, d)) && !HasQuantifier(Branches(c, d))
  {
    ClassText(d);
    hide ClassOf;
    var bar := Bar(ClassOf(d));
    assert Render(bar) == ['|', '[', d, '\\', d, ']'];
    assert WellFormed(bar) && FirstHazard(bar).None? && !HasQuantifier(bar) && HasAlternation(bar);
  }

  /** A repeated group round any quantifier is hazardous, however it is written; an optional group is not. */
  lemma QuantifierInRepeatedGroup(c: char)
    requires IsPlain(c)
    ensures Walk(['(', c, '+', ')', '*'], 0, [], false) == Some(NestedQuantifier)
    ensures Walk(['(', c, '*', ')', '+', '?'], 0, [], false) == Some(NestedQuantifier)
    ensures Walk(['(', '?', ':', c, '?', ')', '{', '2', '}'], 0, [], false) == Some(NestedQuantifier)
    ensures Walk(['(', c, '{', '2', '}', ')', '?'], 0, [], false) == None
  {
    QuantifiedText(c, OneOrMore);
    WrappedText(None, Quantified(c, OneOrMore), Times(ZeroOrMore, false), [c, '+']);
    QuantifiedText(c, ZeroOrMore);
    WrappedText(None, Quantified(c, ZeroOrMore), Times(OneOrMore, true), [c, '*']);
    QuantifiedText(c, Optional);
    WrappedText(Some(":"), Quantified(c, Optional), Times(Counted("2"), false), [c, '?']);
    QuantifiedText(c, Counted("2"));
    WrappedText(None, Quantified(c, Counted("2")), Times(Optional, false), [c, '{', '2', '}']);
    hide Walk, HasQuantifier, FirstHazard, WellFormed, Render, Quantified;
    assert "(" + ("" + ([c, '+'] + ")")) + ("*" + "") == ['(', c, '+', ')', '*'];
    assert "(" + ("" + ([c, '*'] + ")")) + ("+" + "?") == ['(', c, '*', ')', '+', '?'];
    assert "(" + (("?" + ":") + ([c, '?'] + ")")) + (("{" + ("2" + "}")) + "") == ['(', '?', ':', c, '?', ')', '{', '2', '}'];
    assert "(" + ("" + ([c, '{', '2', '}'] + ")")) + ("?" + "") == ['(', c, '{', '2', '}', ')', '?'];
  }

  /** Escaped characters and class members count for nothing, whatever they are; the bar between branches counts. */
  lemma AlternationInRepeatedGroup(c: char, d: char)
    requires d != ']' && d != '\\'
    ensures Walk(['(', '\\', c, '|', '[', d, '\\', d, ']', ')', '*'], 0, [], false) == Some(Alternation)
    ensures Walk(['(', '\\', c, '|', '[', d, '\\', d, ']', ')'], 0, [], false) == None
  {
    BranchesText(c, d);
    var text := ['\\', c, '|', '[', d, '\\', d, ']'];
    WrappedText(None, Branches(c, d), Times(ZeroOrMore, false), text);
    WrappedText(None, Branches(c, d), Once, text);
    hide Walk, HasQuantifier, HasAlternation, FirstHazard, WellFormed, Render, Branches;
    assert "(" + ("" + (text + ")")) + ("*" + "") == ['(', '\\', c, '|', '[', d, '\\', d, ']', ')', '*'];
    assert "(" + ("" + (text + ")")) + "" == ['(', '\\', c, '|', '[', d, '\\', d, ']', ')'];
  }
}
