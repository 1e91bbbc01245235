/** Header names in the proof's canonical order: duplicate-free and sorted by code unit. */
module HeaderNames {

  /** The order `Array.prototype.sort` uses on strings, restricted to ASCII header names. */
  predicate Less(a: string, b: string) {
    |b| > 0 && (|a| == 0 || a[0] < b[0] || (a[0] == b[0] && Less(a[1..], b[1..])))
  }

  predicate StrictlySorted(xs: seq<string>) {
    forall i, j :: 0 <= i < j < |xs| ==> Less(xs[i], xs[j])
  }

  ghost function Elements(xs: seq<string>): set<string> {
    set x | x in xs
  }

  lemma {:induction false} LessTotal(a: string, b: string)
    ensures a == b || Less(a, b) || Less(b, a)
  {
    if |a| > 0 && |b| > 0 && a[0] == b[0] {
      LessTotal(a[1..], b[1..]);
      assert a == [a[0]] + a[1..] && b == [b[0]] + b[1..];
    }
  }

  lemma {:induction false} LessTransitive(a: string, b: string, c: string)
    requires Less(a, b) && Less(b, c)
    ensures Less(a, c)
  {
    if |a| > 0 && a[0] == b[0] && b[0] == c[0] {
      LessTransitive(a[1..], b[1..], c[1..]);
    }
  }

  lemma {:induction false} LessIrreflexive(a: string)
    ensures !Less(a, a)
  {
    if |a| > 0 {
      LessIrreflexive(a[1..]);
    }
  }

  /** Insertion into a strictly sorted list, dropping a name already there. */
  function Insert(x: string, xs: seq<string>): (r: seq<string>) {
    if |xs| == 0 then [x]
    else if x == xs[0] then xs
    else if Less(x, xs[0]) then [x] + xs
    else [xs[0]] + Insert(x, xs[1..])
  }

  /** `[...new Set(xs)].sort()` */
  function SortUnique(xs: seq<string>): (r: seq<string>) {
    if |xs| == 0 then [] else Insert(xs[0], SortUnique(xs[1..]))
  }

  lemma ElementsCons(x: string, xs: seq<string>)
    ensures Elements([x] + xs) == {x} + Elements(xs)
  {
    assert forall y :: y in [x] + xs <==> y == x || y in xs;
  }

  lemma {:induction false} InsertElements(x: string, xs: seq<string>)
    ensures Elements(Insert(x, xs)) == Elements(xs) + {x}
  {
    ElementsCons(x, xs);
    if |xs| == 0 {
      assert [x] + xs == [x];
    } else {
      assert xs == [xs[0]] + xs[1..];
      ElementsCons(xs[0], xs[1..]);
      if x != xs[0] && !Less(x, xs[0]) {
        InsertElements(x, xs[1..]);
        ElementsCons(xs[0], Insert(x, xs[1..]));
      }
    }
  }

  lemma {:induction false} InsertSorted(x: string, xs: seq<string>)
    requires StrictlySorted(xs)
    ensures StrictlySorted(Insert(x, xs))
  {
    if |xs| == 0 || x == xs[0] {
    } else if Less(x, xs[0]) {
      forall j | 0 <= j < |xs| ensures Less(x, xs[j]) {
        if j > 0 {
          LessTransitive(x, xs[0], xs[j]);
        }
      }
    } else {
      LessTotal(x, xs[0]);
      InsertSorted(x, xs[1..]);
      var rest := Insert(x, xs[1..]);
      InsertElements(x, xs[1..]);
      forall j | 0 <= j < |rest| ensures Less(xs[0], rest[j]) {
        assert rest[j] in Elements(rest);
        if rest[j] != x {
          var k :| 0 <= k < |xs[1..]| && xs[1..][k] == rest[j];
          assert xs[k + 1] == rest[j];
        }
      }
    }
  }

  lemma {:induction false} SortUniqueCorrect(xs: seq<string>)
    ensures StrictlySorted(SortUnique(xs))
    ensures Elements(SortUnique(xs)) == Elements(xs)
  {
    if |xs| > 0 {
      SortUniqueCorrect(xs[1..]);
      InsertSorted(xs[0], SortUnique(xs[1..]));
      InsertElements(xs[0], SortUnique(xs[1..]));
      assert xs == [xs[0]] + xs[1..];
    }
  }

  /** A strictly sorted list is determined by its set of elements. */
  lemma {:induction false} SortedUnique(xs: seq<string>, ys: seq<string>)
    requires StrictlySorted(xs) && StrictlySorted(ys)
    requires Elements(xs) == Elements(ys)
    ensures xs == ys
  {
    assert |xs| > 0 ==> xs[0] in Elements(ys);
    assert |ys| > 0 ==> ys[0] in Elements(xs);
    if |xs| > 0 && |ys| > 0 {
      HeadsAgree(xs, ys);
      TailElements(xs);
      TailElements(ys);
      SortedUnique(xs[1..], ys[1..]);
      assert xs == [xs[0]] + xs[1..] && ys == [ys[0]] + ys[1..];
    }
  }

  lemma HeadsAgree(xs: seq<string>, ys: seq<string>)
    requires StrictlySorted(xs) && StrictlySorted(ys)
    requires Elements(xs) == Elements(ys) && |xs| > 0 && |ys| > 0
    ensures xs[0] == ys[0]
  {
    assert xs[0] in Elements(ys) && ys[0] in Elements(xs);
    var i :| 0 <= i < |ys| && ys[i] == xs[0];
    var j :| 0 <= j < |xs| && xs[j] == ys[0];
    if i > 0 && j > 0 {
      LessTransitive(xs[0], ys[0], xs[0]);
      LessIrreflexive(xs[0]);
    }
  }

  lemma TailElements(xs: seq<string>)
    requires StrictlySorted(xs) && |xs| > 0
    ensures Elements(xs[1..]) == Elements(xs) - {xs[0]}
  {
    LessIrreflexive(xs[0]);
    forall x | x in xs && x != xs[0] ensures x in xs[1..] {
      var i :| 0 <= i < |xs| && xs[i] == x;
      assert xs[1..][i - 1] == x;
    }
  }

  /** The canonical list depends only on which names occur, not on their order or repetition. */
  lemma SortUniqueDependsOnSet(xs: seq<string>, ys: seq<string>)
    ensures SortUnique(xs) == SortUnique(ys) <==> Elements(xs) == Elements(ys)
  {
    SortUniqueCorrect(xs);
    SortUniqueCorrect(ys);
    if Elements(xs) == Elements(ys) {
      SortedUnique(SortUnique(xs), SortUnique(ys));
    }
  }

  lemma SortUniqueOfThree(a: seq<string>, b: seq<string>, c: seq<string>)
    ensures StrictlySorted(SortUnique(a + b + c))
    ensures forall x :: x in SortUnique(a + b + c) <==> x in a || x in b || x in c
  {
    SortUniqueCorrect(a + b + c);
    forall x ensures x in SortUnique(a + b + c) <==> x in a || x in b || x in c {
      assert x in SortUnique(a + b + c) <==> x in Elements(a + b + c);
    }
  }
}
