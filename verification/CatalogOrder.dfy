/**
 * The display order of the product catalogue: `moveProduct`.
 * Rows are read by (sort, product_code), one row is put elsewhere, and every row is renumbered 1..n.
 */
module CatalogOrder {
  import opened Common

  type Code = string

  datatype Direction = Up | Down | Top | Bottom | Unrecognised

  datatype Reply = Reply(moved: bool, position: nat)

  // ----- Reading the rows in order -----

  predicate CodeLess(a: Code, b: Code) {
    b != "" && (a == "" || a[0] < b[0] || (a[0] == b[0] && CodeLess(a[1..], b[1..])))
  }

  lemma {:induction false} CodeTotal(a: Code, b: Code)
    ensures a == b || CodeLess(a, b) || CodeLess(b, a)
    ensures !(a == b && CodeLess(a, b)) && !(CodeLess(a, b) && CodeLess(b, a))
  {
    if a != "" && b != "" && a[0] == b[0] {
      CodeTotal(a[1..], b[1..]);
      assert a == [a[0]] + a[1..] && b == [b[0]] + b[1..];
    }
  }

  lemma {:induction false} CodeTransitive(a: Code, b: Code, c: Code)
    requires CodeLess(a, b) && CodeLess(b, c)
    ensures CodeLess(a, c)
  {
    if a != "" && a[0] == b[0] == c[0] {
      CodeTransitive(a[1..], b[1..], c[1..]);
    }
  }

  /** Where two codes part, or where the shorter ends. */
  predicate PartsAt(a: Code, b: Code, k: nat) {
    && k <= |a| && k <= |b| && a[..k] == b[..k]
    && k < |b| && (k == |a| || a[k] < b[k])
  }

  /** A code comes first when it ends, or has the smaller character, where the two part. */
  lemma {:induction false} CodeLessExactly(a: Code, b: Code)
    ensures CodeLess(a, b) <==> exists k: nat :: PartsAt(a, b, k)
  {
    if a == "" || b == "" || a[0] != b[0] {
      PartsAtOnce(a, b);
    } else {
      CodeLessExactly(a[1..], b[1..]);
      if CodeLess(a, b) {
        var k: nat :| PartsAt(a[1..], b[1..], k);
        PartsLater(a, b, k);
      }
      if k: nat :| PartsAt(a, b, k) {
        assert k > 0;
        PartsLater(a, b, k - 1);
      }
    }
  }

  lemma PartsAtOnce(a: Code, b: Code)
    requires a == "" || b == "" || a[0] != b[0]
    ensures CodeLess(a, b) <==> PartsAt(a, b, 0)
    ensures forall k: nat :: k > 0 ==> !PartsAt(a, b, k)
  {
    forall k: nat | k > 0 ensures !PartsAt(a, b, k) {
      if k <= |a| && k <= |b| {
        assert a[..k][0] == a[0] && b[..k][0] == b[0];
      }
    }
  }

  lemma PartsLater(a: Code, b: Code, k: nat)
    requires a != "" && b != "" && a[0] == b[0]
    ensures PartsAt(a, b, k + 1) <==> PartsAt(a[1..], b[1..], k)
  {
    if k + 1 <= |a| && k + 1 <= |b| {
      assert a[..k + 1] == [a[0]] + a[1..][..k] && b[..k + 1] == [b[0]] + b[1..][..k];
      assert a[1..][..k] == a[..k + 1][1..] && b[1..][..k] == b[..k + 1][1..];
    }
  }

  /** `ORDER BY sort ASC, product_code ASC` */
  predicate Before(sort: map<Code, int>, a: Code, b: Code)
    requires a in sort && b in sort
  {
    sort[a] < sort[b] || (sort[a] == sort[b] && CodeLess(a, b))
  }

  ghost predicate IsListing(sort: map<Code, int>, s: seq<Code>) {
    && NoDup(s)
    && (forall c :: c in s <==> c in sort)
    && (forall i, j :: 0 <= i < j < |s| ==> Before(sort, s[i], s[j]))
  }

  ghost predicate IsFirst(sort: map<Code, int>, left: set<Code>, c: Code) {
    && left <= sort.Keys && c in left
    && (forall d :: d in left && d != c ==> Before(sort, c, d))
  }

  lemma {:induction false} FirstExists(sort: map<Code, int>, left: set<Code>) returns (c: Code)
    requires left != {} && left <= sort.Keys
    ensures IsFirst(sort, left, c)
    decreases |left|
  {
    var some :| some in left;
    var rest := left - {some};
    assert forall e :: e in left ==> e == some || e in rest;
    if rest == {} {
      c := some;
    } else {
      var d := FirstExists(sort, rest);
      CodeTotal(some, d);
      c := if Before(sort, d, some) then d else some;
      forall e | e in left && e != c ensures Before(sort, c, e) {
        if e != some && e != d {
          assert e in rest && Before(sort, d, e);
          if c == some { BeforeTransitive(sort, some, d, e); }
        }
      }
    }
  }

  lemma BeforeTransitive(sort: map<Code, int>, a: Code, b: Code, c: Code)
    requires a in sort && b in sort && c in sort && Before(sort, a, b) && Before(sort, b, c)
    ensures Before(sort, a, c)
  {
    if sort[a] == sort[b] == sort[c] {
      CodeTransitive(a, b, c);
    }
  }

  /** At most one sequence lists the rows. */
  lemma {:induction false} ListingUnique(sort: map<Code, int>, s: seq<Code>, t: seq<Code>)
    requires IsListing(sort, s) && IsListing(sort, t)
    ensures s == t
    decreases |s|
  {
    assert t != [] ==> t[0] in sort;
    if s != [] {
      assert s[0] in sort;
      var j :| 0 <= j < |t| && t[j] == s[0];
      var i :| 0 <= i < |s| && s[i] == t[0];
      CodeTotal(s[0], t[0]);
      assert s[0] == t[0];
      var rest := map c | c in sort && c != s[0] :: sort[c];
      ListingTail(sort, s, rest);
      ListingTail(sort, t, rest);
      ListingUnique(rest, s[1..], t[1..]);
      assert s == [s[0]] + s[1..] && t == [t[0]] + t[1..];
    }
  }

  lemma ListingTail(sort: map<Code, int>, s: seq<Code>, rest: map<Code, int>)
    requires IsListing(sort, s) && s != []
    requires rest == map c | c in sort && c != s[0] :: sort[c]
    ensures IsListing(rest, s[1..])
  {
    forall c ensures c in s[1..] <==> c in rest {
      assert s == [s[0]] + s[1..];
      assert c in s <==> c == s[0] || c in s[1..];
      if c in s[1..] {
        var k :| 0 <= k < |s[1..]| && s[1..][k] == c;
        assert s[k + 1] == c;
      }
    }
  }

  // ----- What a move means -----

  /** The other products, in their order. */
  function Others(s: seq<Code>, code: Code): seq<Code> { Filter(s, c => c != code) }

  ghost predicate SideBySide(s: seq<Code>, a: Code, b: Code) {
    exists i :: 0 <= i < |s| - 1 && s[i] == a && s[i + 1] == b
  }

  /** `after` is `before` with `code` put where the operator asked and nothing else disturbed. */
  ghost predicate Placed(before: seq<Code>, after: seq<Code>, code: Code, dir: Direction, anchor: Option<Code>) {
    && NoDup(after) && code in after
    && Others(after, code) == Others(before, code)
    && match dir
       case Top => after[0] == code
       case Bottom => after[|after| - 1] == code
       case Up => anchor.Some? && SideBySide(after, code, anchor.value)
       case Down => anchor.Some? && SideBySide(after, anchor.value, code)
       case Unrecognised => false
  }

  /** Where the request is refused, in the order the checks run. */
  function Refusal(order: seq<Code>, code: Code, dir: Direction, anchor: Option<Code>): Option<Error> {
    var needsAnchor := dir == Up || dir == Down;
    if dir == Unrecognised || (needsAnchor && anchor.None?) || anchor == Some(code) then Some(BadRequest)
    else if code !in order || (needsAnchor && anchor.value !in order) then Some(NotFound)
    else None
  }

  lemma OthersSplit(x: seq<Code>, code: Code, y: seq<Code>)
    requires NoDup(x + [code] + y)
    ensures Others(x + [code] + y, code) == x + y
  {
    var s := x + [code] + y;
    forall c | c in x ensures c != code {
      var i :| 0 <= i < |x| && x[i] == c;
      assert s[i] == c && s[|x|] == code;
    }
    forall c | c in y ensures c != code {
      var i :| 0 <= i < |y| && y[i] == c;
      assert s[|x| + 1 + i] == c && s[|x|] == code;
    }
    var keep := c => c != code;
    FilterConcat(x + [code], y, keep);
    FilterConcat(x, [code], keep);
    FilterAll(x, keep);
    FilterAll(y, keep);
    assert Filter([code], keep) == [];
  }

  lemma SplitAt(s: seq<Code>, i: nat)
    requires i < |s|
    ensures s == s[..i] + [s[i]] + s[i + 1..]
  {
  }

  lemma SplitUnique(a: seq<Code>, b: seq<Code>, c: seq<Code>, d: seq<Code>, x: Code)
    requires NoDup(a + [x] + b) && a + [x] + b == c + [x] + d
    ensures a == c && b == d
  {
    var s := a + [x] + b;
    assert s[|a|] == x && (c + [x] + d)[|c|] == x;
    assert |a| == |c|;
    assert a == s[..|a|] && c == s[..|a|] && b == s[|a| + 1..] && d == s[|a| + 1..];
  }

  /** Cut a list around its target; the remaining products are the two halves. */
  lemma CutOut(s: seq<Code>, code: Code) returns (x: seq<Code>, y: seq<Code>)
    requires NoDup(s) && code in s
    ensures s == x + [code] + y && Others(s, code) == x + y
  {
    var i :| 0 <= i < |s| && s[i] == code;
    x, y := s[..i], s[i + 1..];
    SplitAt(s, i);
    OthersSplit(x, code, y);
  }

  /** The request leaves no choice: two lists that both answer it are equal. */
  lemma PlacedUnique(before: seq<Code>, a: seq<Code>, b: seq<Code>, code: Code, dir: Direction, anchor: Option<Code>)
    requires anchor != Some(code)
    requires Placed(before, a, code, dir, anchor) && Placed(before, b, code, dir, anchor)
    ensures a == b
  {
    var ax, at := PlacedShape(before, a, code, dir, anchor);
    var bx, bt := PlacedShape(before, b, code, dir, anchor);
    if dir == Up {
      SplitUnique(ax, at[1..], bx, bt[1..], anchor.value) by {
        assert ax + at == ax + [anchor.value] + at[1..] && bx + bt == bx + [anchor.value] + bt[1..];
        FilterNoDup(a, c => c != code);
      }
      assert at == [anchor.value] + at[1..] && bt == [anchor.value] + bt[1..];
    } else if dir == Down {
      var au, bu := ax[..|ax| - 1], bx[..|bx| - 1];
      SplitUnique(au, at, bu, bt, anchor.value) by {
        assert ax + at == au + [anchor.value] + at && bx + bt == bu + [anchor.value] + bt;
        FilterNoDup(a, c => c != code);
      }
      assert ax == au + [anchor.value] && bx == bu + [anchor.value];
    } else {
      assert ax + at == bx + bt;
      assert dir == Bottom ==> ax + at == ax && bx + bt == bx;
      assert dir == Top ==> ax + at == at && bx + bt == bt;
    }
  }

  /** The target's surroundings after a move, over the order of the other products. */
  lemma PlacedShape(before: seq<Code>, after: seq<Code>, code: Code, dir: Direction, anchor: Option<Code>)
      returns (x: seq<Code>, y: seq<Code>)
    requires Placed(before, after, code, dir, anchor)
    ensures after == x + [code] + y && Others(before, code) == x + y
    ensures dir == Top ==> x == []
    ensures dir == Bottom ==> y == []
    ensures dir == Up ==> y != [] && y[0] == anchor.value
    ensures dir == Down ==> x != [] && x[|x| - 1] == anchor.value
  {
    x, y := CutOut(after, code);
    assert after[|x|] == code;
    if dir == Up {
      var i :| 0 <= i < |after| - 1 && after[i] == code && after[i + 1] == anchor.value;
      assert i == |x| && after[i + 1] == y[0];
    } else if dir == Down {
      var i :| 0 <= i < |after| - 1 && after[i] == anchor.value && after[i + 1] == code;
      assert i + 1 == |x| && after[i] == x[i];
    }
  }

  lemma ShapePlaced(before: seq<Code>, x: seq<Code>, y: seq<Code>, code: Code, dir: Direction, anchor: Option<Code>)
    requires NoDup(x + [code] + y) && Others(before, code) == x + y
    requires dir == Top ==> x == []
    requires dir == Bottom ==> y == []
    requires dir == Up ==> anchor.Some? && y != [] && y[0] == anchor.value
    requires dir == Down ==> anchor.Some? && x != [] && x[|x| - 1] == anchor.value
    requires dir != Unrecognised
    ensures Placed(before, x + [code] + y, code, dir, anchor)
  {
    var after := x + [code] + y;
    OthersSplit(x, code, y);
    assert after[|x|] == code;
    assert y != [] ==> after[|x| + 1] == y[0];
    assert x != [] ==> after[|x| - 1] == x[|x| - 1];
  }

  lemma PlacedIsPermutation(before: seq<Code>, after: seq<Code>, code: Code, dir: Direction, anchor: Option<Code>)
    requires NoDup(before) && code in before && Placed(before, after, code, dir, anchor)
    ensures multiset(after) == multiset(before)
  {
    var x, y := CutOut(before, code);
    var u, v := CutOut(after, code);
    assert multiset(before) == multiset(x + y) + multiset{code};
    assert multiset(after) == multiset(u + v) + multiset{code};
  }

  /** Asking again changes nothing. */
  lemma RepeatedMoveIsNoMove(before: seq<Code>, once: seq<Code>, twice: seq<Code>,
                             code: Code, dir: Direction, anchor: Option<Code>)
    requires anchor != Some(code)
    requires Placed(before, once, code, dir, anchor) && Placed(once, twice, code, dir, anchor)
    ensures twice == once
  {
    assert Placed(once, once, code, dir, anchor);
    PlacedUnique(once, once, twice, code, dir, anchor);
  }

  // ----- Filtered screens -----

  /** On every filtered screen that shows the target (and its anchor), the move is the same move. */
  lemma ViewMovesAlike(before: seq<Code>, after: seq<Code>, code: Code, dir: Direction, anchor: Option<Code>,
                       shown: Code -> bool)
    requires NoDup(before) && code in before && anchor != Some(code)
    requires Placed(before, after, code, dir, anchor)
    requires shown(code) && (dir == Up || dir == Down ==> shown(anchor.value))
    ensures Placed(Filter(before, shown), Filter(after, shown), code, dir, anchor)
  {
    var x, y := PlacedShape(before, after, code, dir, anchor);
    assert NoDup(after);
    hide Placed, Others;
    ViewOthers(before, x, y, code, shown);
    FilterAround(x, code, y, shown);
    FilterNoDup(after, shown);
    hide NoDup, Filter;
    if dir == Up {
      FilterFirst(y, shown);
    } else if dir == Down {
      FilterLast(x, shown);
    }
    ShapePlaced(Filter(before, shown), Filter(x, shown), Filter(y, shown), code, dir, anchor);
  }

  lemma FilterFirst(s: seq<Code>, shown: Code -> bool)
    requires s != [] && shown(s[0])
    ensures Filter(s, shown) != [] && Filter(s, shown)[0] == s[0]
  {
  }

  lemma FilterLast(s: seq<Code>, shown: Code -> bool)
    requires s != [] && shown(s[|s| - 1])
    ensures Filter(s, shown) != [] && Filter(s, shown)[|Filter(s, shown)| - 1] == s[|s| - 1]
  {
    assert s == s[..|s| - 1] + [s[|s| - 1]];
    FilterConcat(s[..|s| - 1], [s[|s| - 1]], shown);
  }

  lemma ViewOthers(before: seq<Code>, x: seq<Code>, y: seq<Code>, code: Code, shown: Code -> bool)
    requires NoDup(before) && code in before && shown(code)
    requires Others(before, code) == x + y
    ensures Others(Filter(before, shown), code) == Filter(x, shown) + Filter(y, shown)
  {
    var a, b := CutOut(before, code);
    FilterAround(a, code, b, shown);
    FilterNoDup(before, shown);
    OthersSplit(Filter(a, shown), code, Filter(b, shown));
    FilterConcat(a, b, shown);
    FilterConcat(x, y, shown);
  }

  /** A screen that hides the target does not change. */
  lemma HiddenMoveUnseen(before: seq<Code>, after: seq<Code>, code: Code, dir: Direction, anchor: Option<Code>,
                         shown: Code -> bool)
    requires NoDup(before) && code in before && Placed(before, after, code, dir, anchor)
    requires !shown(code)
    ensures Filter(after, shown) == Filter(before, shown)
  {
    var a, b := CutOut(before, code);
    var x, y := PlacedShape(before, after, code, dir, anchor);
    FilterAround(a, code, b, shown);
    FilterAround(x, code, y, shown);
    FilterConcat(a, b, shown);
    FilterConcat(x, y, shown);
    assert Filter(a, shown) + [] == Filter(a, shown) && Filter(x, shown) + [] == Filter(x, shown);
  }

  lemma FilterAround(x: seq<Code>, code: Code, y: seq<Code>, shown: Code -> bool)
    ensures Filter(x + [code] + y, shown) == Filter(x, shown) + (if shown(code) then [code] else []) + Filter(y, shown)
  {
    FilterConcat(x + [code], y, shown);
    FilterConcat(x, [code], shown);
  }

  /** When the anchor is the target's visible neighbour, up/down swaps exactly those two on the screen. */
  lemma NeighbourSwaps(before: seq<Code>, after: seq<Code>, code: Code, dir: Direction, anchor: Code,
                       shown: Code -> bool, head: seq<Code>, tail: seq<Code>)
    requires NoDup(before) && code in before && anchor != code && (dir == Up || dir == Down)
    requires shown(code) && shown(anchor) && Placed(before, after, code, dir, Some(anchor))
    requires Filter(before, shown) == head + (if dir == Up then [anchor, code] else [code, anchor]) + tail
    ensures Filter(after, shown) == head + (if dir == Up then [code, anchor] else [anchor, code]) + tail
  {
    ViewMovesAlike(before, after, code, dir, Some(anchor), shown);
    FilterNoDup(before, shown);
    var view := Filter(before, shown);
    if dir == Up {
      SwapPlaced(view, head, anchor, code, tail, code, dir, anchor);
      PlacedUnique(view, Filter(after, shown), head + [code, anchor] + tail, code, dir, Some(anchor));
    } else {
      SwapPlaced(view, head, code, anchor, tail, code, dir, anchor);
      PlacedUnique(view, Filter(after, shown), head + [anchor, code] + tail, code, dir, Some(anchor));
    }
  }

  lemma SwapPlaced(view: seq<Code>, head: seq<Code>, a: Code, b: Code, tail: seq<Code>,
                   code: Code, dir: Direction, anchor: Code)
    requires NoDup(view) && view == head + [a, b] + tail
    requires (dir == Up && a == anchor && b == code) || (dir == Down && a == code && b == anchor)
    ensures Placed(view, head + [b, a] + tail, code, dir, Some(anchor))
  {
    var swapped := head + [b, a] + tail;
    SwappedNoDup(view, head, a, b, tail);
    if dir == Up {
      assert swapped == head + [code] + ([anchor] + tail);
      assert view == (head + [anchor]) + [code] + tail;
      OthersSplit(head + [anchor], code, tail);
      assert (head + [anchor]) + tail == head + ([anchor] + tail);
      ShapePlaced(view, head, [anchor] + tail, code, dir, Some(anchor));
    } else {
      assert swapped == (head + [anchor]) + [code] + tail;
      assert view == head + [code] + ([anchor] + tail);
      OthersSplit(head, code, [anchor] + tail);
      assert (head + [anchor]) + tail == head + ([anchor] + tail);
      ShapePlaced(view, head + [anchor], tail, code, dir, Some(anchor));
    }
  }

  lemma SwappedNoDup(view: seq<Code>, head: seq<Code>, a: Code, b: Code, tail: seq<Code>)
    requires NoDup(view) && view == head + [a, b] + tail
    ensures NoDup(head + [b, a] + tail)
  {
    var swapped, k := head + [b, a] + tail, |head|;
    forall i, j | 0 <= i < j < |swapped| ensures swapped[i] != swapped[j] {
      assert swapped[i] == view[Swapped(i, k)] && swapped[j] == view[Swapped(j, k)];
    }
  }

  function Swapped(i: nat, k: nat): nat {
    if i == k then k + 1 else if i == k + 1 then k else i
  }

  // ----- Any order can be reached -----

  /** A move that is not refused has a result. */
  lemma MoveExists(order: seq<Code>, code: Code, dir: Direction, anchor: Option<Code>) returns (after: seq<Code>)
    requires NoDup(order) && Refusal(order, code, dir, anchor).None?
    ensures Placed(order, after, code, dir, anchor) && multiset(after) == multiset(order)
    ensures forall c :: c in after <==> c in order
  {
    var x, y := CutOut(order, code);
    var next := x + y;
    OthersKept(order, code, next);
    var to := InsertionPoint(next, dir, anchor);
    assert x == order[..|x|] && y == order[|x| + 1..];
    AfterMove(order, next, |x|, to, code, dir, anchor);
    after := next[..to] + [code] + next[to..];
    PlacedIsPermutation(order, after, code, dir, anchor);
    hide Placed, NoDup, Others, Inserts;
  }

  /** A move is accepted exactly to an end of a catalogue that has the product, or beside another product of it;
      a malformed request is told apart from a product that is not there. */
  lemma MoveAcceptedExactly(order: seq<Code>, code: Code, dir: Direction, anchor: Option<Code>)
    ensures Refusal(order, code, dir, anchor).None? <==>
      && code in order && anchor != Some(code)
      && (dir == Top || dir == Bottom || ((dir == Up || dir == Down) && anchor.Some? && anchor.value in order))
    ensures Refusal(order, code, dir, anchor) == Some(NotFound) <==>
      && anchor != Some(code)
      && (((dir == Top || dir == Bottom) && code !in order)
          || ((dir == Up || dir == Down) && anchor.Some? && (code !in order || anchor.value !in order)))
  {
  }

  /** To the top or the bottom no anchor is needed, and the others follow or precede in their order. */
  lemma EndsReached(order: seq<Code>, code: Code)
    requires NoDup(order) && code in order
    ensures Refusal(order, code, Top, None).None? && Placed(order, [code] + Others(order, code), code, Top, None)
    ensures Refusal(order, code, Bottom, None).None? && Placed(order, Others(order, code) + [code], code, Bottom, None)
  {
    var rest := Others(order, code);
    OthersKept(order, code, rest);
    FilterNoDup(order, c => c != code);
    NoDupAround(rest, code);
    hide NoDup, Placed, Others;
    assert [] + [code] + rest == [code] + rest && rest + [code] + [] == rest + [code];
    assert [] + rest == rest && rest + [] == rest;
    ShapePlaced(order, [], rest, code, Top, None);
    ShapePlaced(order, rest, [], code, Bottom, None);
  }

  lemma NoDupAround(rest: seq<Code>, code: Code)
    requires NoDup(rest) && code !in rest
    ensures NoDup([code] + rest) && NoDup(rest + [code])
  {
  }

  lemma OthersKept(order: seq<Code>, code: Code, next: seq<Code>)
    requires next == Others(order, code)
    ensures forall c :: c in next <==> c in order && c != code
  {
    forall c ensures c in next <==> c in order && c != code {
      FilterMember(order, c => c != code, c);
    }
  }

  lemma InsertionPoint(next: seq<Code>, dir: Direction, anchor: Option<Code>) returns (to: nat)
    requires dir != Unrecognised && (dir == Up || dir == Down ==> anchor.Some? && anchor.value in next)
    ensures Inserts(next, to, dir, anchor)
  {
    to := 0;
    if dir == Bottom {
      to := |next|;
    } else if dir == Up || dir == Down {
      var i :| 0 <= i < |next| && next[i] == anchor.value;
      to := if dir == Up then i else i + 1;
    }
  }

  /** The orders that bottom moves of the first k products of `target` lead through. */
  ghost predicate BottomMoves(steps: seq<seq<Code>>, start: seq<Code>, target: seq<Code>, k: nat)
    requires k <= |target|
  {
    && |steps| == k + 1 && steps[0] == start
    && forall i :: 0 <= i < k ==> Placed(steps[i], steps[i + 1], target[i], Bottom, None)
  }

  lemma {:induction false} BottomMovesExist(start: seq<Code>, target: seq<Code>, k: nat) returns (steps: seq<seq<Code>>)
    requires NoDup(start) && k <= |target| && forall c :: c in target ==> c in start
    ensures BottomMoves(steps, start, target, k) && NoDup(steps[k]) && forall c :: c in steps[k] <==> c in start
  {
    if k == 0 {
      steps := [start];
    } else {
      var before := BottomMovesExist(start, target, k - 1);
      var last := MoveExists(before[k - 1], target[k - 1], Bottom, None);
      steps := before + [last];
    }
  }

  /** Any order of n products is reached from any other by n bottom moves, and every way to carry them out
      leads there. */
  lemma BottomMovesReachAnyOrder(start: seq<Code>, target: seq<Code>)
    requires NoDup(start) && NoDup(target) && forall c :: c in start <==> c in target
    ensures exists steps :: BottomMoves(steps, start, target, |target|)
    ensures forall steps :: BottomMoves(steps, start, target, |target|) ==> steps[|target|] == target
  {
    var some := BottomMovesExist(start, target, |target|);
    forall steps | BottomMoves(steps, start, target, |target|) ensures steps[|target|] == target {
      BottomMovesEndThere(steps, target);
    }
  }

  /** Sending the products to the bottom one by one in the wanted order produces that order. */
  lemma BottomMovesEndThere(steps: seq<seq<Code>>, target: seq<Code>)
    requires NoDup(target) && |steps| == |target| + 1
    requires NoDup(steps[0]) && forall c :: c in steps[0] <==> c in target
    requires forall i :: 0 <= i < |target| ==> Placed(steps[i], steps[i + 1], target[i], Bottom, None)
    ensures steps[|target|] == target
  {
    AfterBottomMoves(steps, target, |target|);
    FilterNone(steps[0], Unsent(target[..|target|]));
    assert target[..|target|] == target;
  }

  lemma {:induction false} AfterBottomMoves(steps: seq<seq<Code>>, target: seq<Code>, k: nat)
    requires NoDup(target) && |steps| == |target| + 1 && k <= |target|
    requires NoDup(steps[0]) && forall c :: c in target ==> c in steps[0]
    requires forall i :: 0 <= i < |target| ==> Placed(steps[i], steps[i + 1], target[i], Bottom, None)
    ensures steps[k] == Filter(steps[0], Unsent(target[..k])) + target[..k]
  {
    if k == 0 {
      FilterAll(steps[0], Unsent(target[..0]));
    } else {
      AfterBottomMoves(steps, target, k - 1);
      var code, done := target[k - 1], target[..k - 1];
      var x, y := PlacedShape(steps[k - 1], steps[k], code, Bottom, None);
      assert target[..k] == done + [code];
      forall i | 0 <= i < |done| ensures done[i] != code {
        assert target[i] != target[k - 1];
      }
      OthersOfBottomed(steps[0], done, code);
      assert x + y == x && steps[k] == x + [code];
      assert x == Filter(steps[0], Unsent(target[..k])) + done;
    }
  }

  lemma OthersOfBottomed(s: seq<Code>, done: seq<Code>, code: Code)
    requires code !in done
    ensures Others(Filter(s, Unsent(done)) + done, code) == Filter(s, Unsent(done + [code])) + done
  {
    var unsent, isOther := Unsent(done), (c: Code) => c != code;
    FilterConcat(Filter(s, unsent), done, isOther);
    FilterAll(done, isOther);
    FilterTwice(s, unsent, isOther);
    FilterSame(s, FilterBoth(unsent, isOther), Unsent(done + [code]));
  }

  function Unsent(done: seq<Code>): Code -> bool { c => c !in done }

  function FilterBoth<T>(p: T -> bool, q: T -> bool): T -> bool { x => p(x) && q(x) }

  lemma {:induction false} FilterTwice<T>(s: seq<T>, p: T -> bool, q: T -> bool)
    ensures Filter(Filter(s, p), q) == Filter(s, FilterBoth(p, q))
  {
    if s != [] {
      FilterTwice(s[1..], p, q);
      if p(s[0]) {
        FilterConcat([s[0]], Filter(s[1..], p), q);
      }
    }
  }

  // ----- The handler -----

  lemma {:induction false} ListingExists(sort: map<Code, int>, left: set<Code>) returns (s: seq<Code>)
    requires left <= sort.Keys
    ensures IsListing(map c | c in left :: sort[c], s)
    decreases |left|
  {
    if left == {} {
      s := [];
    } else {
      var c := FirstExists(sort, left);
      var t := ListingExists(sort, left - {c});
      s := [c] + t;
      var here, there := map d | d in left :: sort[d], map d | d in left - {c} :: sort[d];
      assert forall d :: d in s <==> d == c || d in t;
      assert forall d :: d in s <==> d in here;
      forall i, j | 0 <= i < j < |s| ensures s[i] in here && s[j] in here && Before(here, s[i], s[j]) && s[i] != s[j] {
        assert s[j] == t[j - 1] && s[j] in there;
        if i > 0 {
          assert s[i] == t[i - 1] && s[i] in there && Before(there, s[i], s[j]);
        }
      }
    }
  }

  lemma SomeListing(sort: map<Code, int>)
    ensures exists s :: IsListing(sort, s)
  {
    var s := ListingExists(sort, sort.Keys);
    assert (map c | c in sort.Keys :: sort[c]) == sort;
  }

  /** The rows in display order. */
  ghost function Listed(sort: map<Code, int>): (s: seq<Code>)
    ensures IsListing(sort, s)
  {
    SomeListing(sort);
    var s :| IsListing(sort, s);
    s
  }

  /** The listing has every product once, by sort, and by code where the sort is the same. */
  lemma ListedInOrder(sort: map<Code, int>, i: nat, j: nat)
    requires i < j < |Listed(sort)|
    ensures NoDup(Listed(sort)) && forall c :: c in Listed(sort) <==> c in sort
    ensures
      var a, b := Listed(sort)[i], Listed(sort)[j];
      sort[a] < sort[b] || (sort[a] == sort[b] && exists k: nat :: PartsAt(a, b, k))
  {
    var s := Listed(sort);
    assert IsListing(sort, s) && Before(sort, s[i], s[j]);
    CodeLessExactly(s[i], s[j]);
  }

  /** Reading back after renumbering 1..n gives the order that was written. */
  lemma RenumberedReadsBack(sort: map<Code, int>, order: seq<Code>)
    requires NoDup(order)
    requires forall c :: c in order <==> c in sort
    requires forall i :: 0 <= i < |order| ==> sort[order[i]] == i + 1
    ensures Listed(sort) == order
  {
    ListingUnique(sort, Listed(sort), order);
  }

  class ProductTable {
    /** The `sort` column of the live products, by product code. */
    var sort: map<Code, int>

    constructor (rows: map<Code, int>)
      ensures sort == rows
    {
      sort := rows;
    }

    /** SELECT ... ORDER BY sort ASC, product_code ASC FOR UPDATE */
    method SelectOrdered() returns (rows: seq<Code>)
      ensures rows == Listed(sort)
    {
      rows := [];
      var left := sort.Keys;
      while left != {}
        invariant left <= sort.Keys && NoDup(rows)
        invariant forall c :: c in rows <==> c in sort && c !in left
        invariant forall i, j :: 0 <= i < j < |rows| ==> Before(sort, rows[i], rows[j])
        invariant forall c, d :: c in rows && d in left ==> Before(sort, c, d)
        decreases |left|
      {
        ghost var first := FirstExists(sort, left);
        var c :| c in left && forall d :: d in left && d != c ==> Before(sort, c, d);
        rows, left := rows + [c], left - {c};
      }
      ListingUnique(sort, rows, Listed(sort));
    }

    method MoveProduct(code: Code, dir: Direction, anchor: Option<Code>) returns (r: Result<Reply>)
      modifies this
      ensures r.Err? <==> Refusal(old(Listed(sort)), code, dir, anchor).Some?
      ensures r.Err? ==> r.error == Refusal(old(Listed(sort)), code, dir, anchor).value && sort == old(sort)
      ensures r.Ok? ==>
        && Placed(old(Listed(sort)), Listed(sort), code, dir, anchor)
        && sort.Keys == old(sort).Keys
        && r.value.position < |Listed(sort)| && Listed(sort)[r.value.position] == code
        && (r.value.moved <==> Listed(sort) != old(Listed(sort)))
        && if r.value.moved then forall i :: 0 <= i < |Listed(sort)| ==> sort[Listed(sort)[i]] == i + 1
           else sort == old(sort)
    {
      hide Placed, Filter;
      if dir == Unrecognised || ((dir == Up || dir == Down) && anchor == None) || anchor == Some(code) {
        return Err(BadRequest);
      }
      var rows := SelectOrdered();
      var from := FindIndex(rows, code);
      if from < 0 {
        return Err(NotFound);
      }
      var next := rows[..from] + rows[from + 1..];
      SplitAt(rows, from);
      OthersSplit(rows[..from], code, rows[from + 1..]);
      var to := Destination(next, dir, anchor);
      OthersKept(rows, code, next);
      if to < 0 {
        return Err(NotFound);
      }
      AfterMove(rows, next, from, to, code, dir, anchor);
      if to == from {
        return Ok(Reply(false, to));
      }
      next := next[..to] + [code] + next[to..];
      Renumber(next);
      RenumberedReadsBack(sort, next);
      r := Ok(Reply(true, to));
    }

    /** The insertion point among the remaining rows; negative when the anchor is not there. */
    static method Destination(next: seq<Code>, dir: Direction, anchor: Option<Code>) returns (to: int)
      requires dir == Up || dir == Down ==> anchor.Some?
      ensures to < 0 <==> (dir == Up || dir == Down) && anchor.value !in next
      ensures to >= 0 ==> Inserts(next, to, dir, anchor)
    {
      if dir == Top {
        return 0;
      }
      if dir != Up && dir != Down {
        return |next|;
      }
      to := FindIndex(next, anchor.value);
      if to >= 0 && dir == Down {
        to := to + 1;
      }
    }

    /** UPDATE ... SET sort = pos FROM unnest(ids) WITH ORDINALITY */
    method Renumber(order: seq<Code>)
      requires NoDup(order) && forall c :: c in order <==> c in sort
      modifies this
      ensures sort.Keys == old(sort).Keys
      ensures forall i :: 0 <= i < |order| ==> sort[order[i]] == i + 1
    {
      var k := 0;
      while k < |order|
        invariant 0 <= k <= |order| && sort.Keys == old(sort).Keys
        invariant forall i :: 0 <= i < k ==> sort[order[i]] == i + 1
      {
        sort := sort[order[k] := k + 1];
        k := k + 1;
      }
    }
  }

  method FindIndex(rows: seq<Code>, code: Code) returns (at: int)
    ensures at < 0 <==> code !in rows
    ensures at >= 0 ==> at < |rows| && rows[at] == code && code !in rows[..at]
  {
    at := 0;
    while at < |rows|
      invariant 0 <= at <= |rows| && code !in rows[..at]
    {
      if rows[at] == code {
        return;
      }
      at := at + 1;
    }
    at := -1;
  }

  predicate Inserts(next: seq<Code>, to: nat, dir: Direction, anchor: Option<Code>) {
    && to <= |next|
    && (dir == Top ==> to == 0)
    && (dir == Bottom ==> to == |next|)
    && (dir == Up ==> anchor.Some? && to < |next| && next[to] == anchor.value)
    && (dir == Down ==> anchor.Some? && to > 0 && next[to - 1] == anchor.value)
  }

  lemma AfterMove(rows: seq<Code>, next: seq<Code>, from: nat, to: nat,
                  code: Code, dir: Direction, anchor: Option<Code>)
    requires NoDup(rows) && from < |rows| && rows[from] == code && next == rows[..from] + rows[from + 1..]
    requires Others(rows, code) == next && dir != Unrecognised
    requires forall c :: c in next <==> c in rows && c != code
    requires Inserts(next, to, dir, anchor)
    ensures
      var after := next[..to] + [code] + next[to..];
      && Placed(rows, after, code, dir, anchor)
      && (forall c :: c in after <==> c in rows)
      && after[to] == code
      && (to == from <==> after == rows)
  {
    var after := next[..to] + [code] + next[to..];
    assert next == next[..to] + next[to..];
    FilterNoDup(rows, c => c != code);
    InsertedNoDup(next, to, code);
    ShapePlaced(rows, next[..to], next[to..], code, dir, anchor);
    assert forall c :: c in after <==> c == code || c in next;
    if to == from {
      assert next[..to] == rows[..from] && next[to..] == rows[from + 1..];
      SplitAt(rows, from);
    } else {
      assert after[to] == code && rows[from] == code;
    }
  }

  lemma InsertedNoDup(next: seq<Code>, to: nat, code: Code)
    requires NoDup(next) && code !in next && to <= |next|
    ensures NoDup(next[..to] + [code] + next[to..])
  {
    var after := next[..to] + [code] + next[to..];
    forall i, j | 0 <= i < j < |after| ensures after[i] != after[j] {
      assert i != to ==> after[i] == next[if i < to then i else i - 1];
      assert j != to ==> after[j] == next[if j < to then j else j - 1];
    }
  }
}
