/** Effective-dated credit rates: a change of price closes the open window of its scope and opens another. */
module RateWindows {
  import opened Common

  datatype Prices = Prices(input: nat, output: nat, cacheWrite: nat, cacheRead: nat, rerank: nat, parse: nat)

  /** A rate row; `from` and `to` bound the instants, in microseconds, at which it is in force. */
  datatype Rate = Rate(provider: Option<string>, model: Option<string>, prices: Prices, from: int, to: Option<int>)

  /** One request: what to charge, for which scope, from when. */
  datatype Change = Change(provider: Option<string>, model: Option<string>, prices: Prices, at: int)

  function OrEmpty(s: Option<string>): string { if s.Some? then s.value else "" }

  function ScopeOf(provider: Option<string>, model: Option<string>): (string, string) {
    (OrEmpty(provider), OrEmpty(model))
  }

  predicate In(r: Rate, scope: (string, string)) { ScopeOf(r.provider, r.model) == scope }

  function Scope(c: Change): (string, string) { ScopeOf(c.provider, c.model) }

  /** `effective_from <= t and (effective_to is null or effective_to > t)` */
  predicate InForce(r: Rate, t: int) { r.from <= t && (r.to.None? || t < r.to.value) }

  predicate Closes(r: Rate, c: Change) { In(r, Scope(c)) && r.to.None? && r.from < c.at }

  function Closed(rows: seq<Rate>, c: Change): seq<Rate> {
    seq(|rows|, i requires 0 <= i < |rows| => if Closes(rows[i], c) then rows[i].(to := Some(c.at)) else rows[i])
  }

  /** The unique index on scope and start. */
  predicate Taken(rows: seq<Rate>, c: Change) {
    exists i :: 0 <= i < |rows| && In(rows[i], Scope(c)) && rows[i].from == c.at
  }

  function Opened(c: Change): Rate { Rate(c.provider, c.model, c.prices, c.at, None) }

  function Reprice(rows: seq<Rate>, c: Change): Result<seq<Rate>> {
    if Taken(rows, c) then Err(Conflict) else Ok(Closed(rows, c) + [Opened(c)])
  }

  function Apply(rows: seq<Rate>, c: Change): seq<Rate> {
    match Reprice(rows, c)
    case Ok(n) => n
    case Err(_) => rows
  }

  function Run(rows: seq<Rate>, cs: seq<Change>): seq<Rate>
    decreases cs
  {
    if cs == [] then rows else Run(Apply(rows, cs[0]), cs[1..])
  }

  // ----- the past stays as it was -----

  /** Same scope, prices and start; a window once closed stays where it was closed. */
  predicate SameRate(r: Rate, n: Rate) { n == r.(to := n.to) && (r.to.Some? ==> n.to == r.to) }

  ghost predicate HistoryKept(rows: seq<Rate>, n: seq<Rate>, before: int) {
    && |rows| <= |n|
    && (forall i :: 0 <= i < |rows| ==> SameRate(rows[i], n[i]))
    && (forall i, t :: 0 <= i < |rows| && t < before ==> InForce(n[i], t) == InForce(rows[i], t))
    && (forall i, t :: |rows| <= i < |n| && t < before ==> !InForce(n[i], t))
  }

  lemma ApplyKeepsHistory(rows: seq<Rate>, c: Change, before: int)
    requires before <= c.at
    ensures HistoryKept(rows, Apply(rows, c), before)
  {
  }

  /** A run of changes effective from `before` on leaves every price column, and what is in force at
      every earlier instant, exactly as it was. */
  lemma {:induction false} RunKeepsHistory(rows: seq<Rate>, cs: seq<Change>, before: int)
    requires forall k :: 0 <= k < |cs| ==> before <= cs[k].at
    ensures HistoryKept(rows, Run(rows, cs), before)
    decreases cs
  {
    if cs != [] {
      var mid, last := Apply(rows, cs[0]), Run(rows, cs);
      ApplyKeepsHistory(rows, cs[0], before);
      RunKeepsHistory(mid, cs[1..], before);
      hide Apply, Run;
      forall i | 0 <= i < |rows| ensures SameRate(rows[i], last[i]) {
        assert SameRate(rows[i], mid[i]) && SameRate(mid[i], last[i]);
      }
    }
  }

  // ----- windows that tile -----

  predicate Applies(rows: seq<Rate>, scope: (string, string), i: int, t: int) {
    0 <= i < |rows| && In(rows[i], scope) && InForce(rows[i], t)
  }

  predicate Covered(rows: seq<Rate>, scope: (string, string), t: int) {
    exists i :: 0 <= i < |rows| && Applies(rows, scope, i, t)
  }

  /** From its first start on, exactly one rate of the scope is in force at every instant; before, none. */
  ghost predicate Tiled(rows: seq<Rate>, scope: (string, string), start: int) {
    && (forall i, t :: t < start ==> !Applies(rows, scope, i, t))
    && (forall t :: start <= t ==> Covered(rows, scope, t))
    && (forall i, j, t :: Applies(rows, scope, i, t) && Applies(rows, scope, j, t) ==> i == j)
  }

  predicate Unused(rows: seq<Rate>, scope: (string, string)) {
    forall i :: 0 <= i < |rows| ==> !In(rows[i], scope)
  }

  /** The rate in force from some instant on, for good. */
  predicate IsOpen(rows: seq<Rate>, scope: (string, string), i: int) {
    0 <= i < |rows| && In(rows[i], scope) && rows[i].to.None?
  }

  predicate WindowsOk(rows: seq<Rate>) {
    forall i :: 0 <= i < |rows| ==> rows[i].to.Some? ==> rows[i].from < rows[i].to.value
  }

  lemma OneOpenEnd(rows: seq<Rate>, scope: (string, string), start: int) returns (i: int)
    requires Tiled(rows, scope, start)
    ensures IsOpen(rows, scope, i) && forall j :: IsOpen(rows, scope, j) ==> j == i
    ensures forall j :: 0 <= j < |rows| && In(rows[j], scope) && j != i && rows[j].to.Some? ==>
      rows[j].to.value <= rows[i].from || rows[j].to.value <= rows[j].from
  {
    var late := Latest(rows, start);
    assert Covered(rows, scope, late);
    i :| 0 <= i < |rows| && Applies(rows, scope, i, late);
    forall j | IsOpen(rows, scope, j) ensures j == i {
      assert Applies(rows, scope, j, late);
    }
    forall j | 0 <= j < |rows| && In(rows[j], scope) && j != i && rows[j].to.Some?
      ensures rows[j].to.value <= rows[i].from || rows[j].to.value <= rows[j].from
    {
      var t := rows[j].to.value - 1;
      assert Applies(rows, scope, j, t) && Applies(rows, scope, i, t) ==> i == j;
    }
  }

  /** An instant past every start and every end. */
  lemma {:induction false} Latest(rows: seq<Rate>, start: int) returns (t: int)
    ensures t >= start
    ensures forall i :: 0 <= i < |rows| ==> rows[i].from < t && (rows[i].to.Some? ==> rows[i].to.value < t)
  {
    if rows == [] {
      t := start;
    } else {
      var n := |rows| - 1;
      t := Latest(rows[..n], start);
      var r := rows[n];
      if t <= r.from { t := r.from + 1; }
      if r.to.Some? && t <= r.to.value { t := r.to.value + 1; }
      assert forall i :: 0 <= i < n ==> rows[i] == rows[..n][i];
    }
  }

  lemma FirstWindow(rows: seq<Rate>, c: Change)
    requires Unused(rows, Scope(c))
    ensures Reprice(rows, c).Ok? && Tiled(Reprice(rows, c).value, Scope(c), c.at)
  {
    var n := Reprice(rows, c).value;
    forall t | c.at <= t ensures Covered(n, Scope(c), t) {
      assert Applies(n, Scope(c), |rows|, t);
    }
  }

  /** A later change closes the open window where the next one starts. */
  lemma LaterWindow(rows: seq<Rate>, c: Change, start: int, open: int)
    requires Tiled(rows, Scope(c), start) && IsOpen(rows, Scope(c), open) && rows[open].from < c.at
    requires WindowsOk(rows)
    ensures Reprice(rows, c).Ok? ==> Tiled(Reprice(rows, c).value, Scope(c), start)
  {
    if Reprice(rows, c).Ok? {
      var n := Reprice(rows, c).value;
      ApplyKeepsHistory(rows, c, c.at);
      var i := OneOpenEnd(rows, Scope(c), start);
      assert i == open;
      assert Applies(rows, Scope(c), open, rows[open].from);
      LaterInForce(rows, c, open, n);
      forall t | start <= t ensures Covered(n, Scope(c), t) {
        if t < c.at {
          assert Covered(rows, Scope(c), t);
          var j :| 0 <= j < |rows| && Applies(rows, Scope(c), j, t);
          assert Applies(n, Scope(c), j, t);
        } else {
          assert Applies(n, Scope(c), |rows|, t);
        }
      }
      forall j, k, t | Applies(n, Scope(c), j, t) && Applies(n, Scope(c), k, t) ensures j == k {
        assert t < c.at ==> Applies(rows, Scope(c), j, t) && Applies(rows, Scope(c), k, t);
      }
      forall j, t | t < start ensures !Applies(n, Scope(c), j, t) {
        assert j < |rows| ==> !Applies(rows, Scope(c), j, t);
      }
    }
  }

  /** From the change on, only the new row is in force. */
  lemma LaterInForce(rows: seq<Rate>, c: Change, open: int, n: seq<Rate>)
    requires IsOpen(rows, Scope(c), open) && rows[open].from < c.at && WindowsOk(rows)
    requires forall j :: IsOpen(rows, Scope(c), j) ==> j == open
    requires forall j :: 0 <= j < |rows| && In(rows[j], Scope(c)) && j != open && rows[j].to.Some? ==>
      rows[j].to.value <= rows[open].from || rows[j].to.value <= rows[j].from
    requires Reprice(rows, c) == Ok(n)
    ensures forall j, t :: c.at <= t && Applies(n, Scope(c), j, t) ==> j == |rows|
  {
    forall j, t | c.at <= t && Applies(n, Scope(c), j, t) ensures j == |rows| {
      if j < |rows| {
        assert In(rows[j], Scope(c));
        assert rows[j].to.None? ==> IsOpen(rows, Scope(c), j);
      }
    }
  }

  /** An accepted change leaves its scope tiled exactly when it starts after the open window does. */
  lemma TilingKeptExactly(rows: seq<Rate>, c: Change, start: int, open: int)
    requires Tiled(rows, Scope(c), start) && IsOpen(rows, Scope(c), open) && WindowsOk(rows)
    requires Reprice(rows, c).Ok?
    ensures (exists s :: Tiled(Reprice(rows, c).value, Scope(c), s)) <==> rows[open].from < c.at
  {
    var n := Reprice(rows, c).value;
    if rows[open].from < c.at {
      LaterWindow(rows, c, start, open);
    } else {
      assert rows[open].from > c.at by {
        assert rows[open].from == c.at ==> Taken(rows, c);
      }
      var t := rows[open].from;
      assert Applies(n, Scope(c), open, t) && Applies(n, Scope(c), |rows|, t);
    }
  }

  /** Other scopes do not notice. */
  lemma OtherScopesKept(rows: seq<Rate>, c: Change, scope: (string, string), start: int)
    requires Tiled(rows, scope, start) && scope != Scope(c)
    ensures Tiled(Apply(rows, c), scope, start)
  {
    var n := Apply(rows, c);
    forall i, t ensures Applies(n, scope, i, t) <==> Applies(rows, scope, i, t) {
    }
    forall t | start <= t ensures Covered(n, scope, t) {
      assert Covered(rows, scope, t);
      var i :| 0 <= i < |rows| && Applies(rows, scope, i, t);
      assert Applies(n, scope, i, t);
    }
  }

  // ----- runs in order -----

  ghost predicate Sound(rows: seq<Rate>) {
    && WindowsOk(rows)
    && forall scope :: Unused(rows, scope) || exists start :: Tiled(rows, scope, start)
  }

  predicate Later(rows: seq<Rate>, c: Change) {
    forall i :: 0 <= i < |rows| && In(rows[i], Scope(c)) ==> rows[i].from < c.at
  }

  lemma ApplyLater(rows: seq<Rate>, c: Change)
    requires Sound(rows) && Later(rows, c)
    ensures Reprice(rows, c).Ok? && Sound(Apply(rows, c))
  {
    var n := Apply(rows, c);
    forall scope ensures Unused(n, scope) || exists start :: Tiled(n, scope, start) {
      if scope == Scope(c) {
        if Unused(rows, scope) {
          FirstWindow(rows, c);
        } else {
          var start :| Tiled(rows, scope, start);
          var open := OneOpenEnd(rows, scope, start);
          LaterWindow(rows, c, start, open);
        }
      } else if Unused(rows, scope) {
        assert Unused(n, scope);
      } else {
        var start :| Tiled(rows, scope, start);
        OtherScopesKept(rows, c, scope, start);
      }
    }
  }

  /** Each scope's changes come in increasing order of their effective times. */
  predicate InOrder(cs: seq<Change>) {
    forall i, j :: 0 <= i < j < |cs| && Scope(cs[i]) == Scope(cs[j]) ==> cs[i].at < cs[j].at
  }

  /** Then none is refused, and every scope stays tiled: disjoint, without gaps, with one open end. */
  lemma {:induction false} OrderedChangesTile(rows: seq<Rate>, cs: seq<Change>)
    requires Sound(rows) && InOrder(cs) && forall k :: 0 <= k < |cs| ==> Later(rows, cs[k])
    ensures Sound(Run(rows, cs)) && |Run(rows, cs)| == |rows| + |cs|
    decreases cs
  {
    if cs != [] {
      var n := Apply(rows, cs[0]);
      ApplyLater(rows, cs[0]);
      forall k | 0 <= k < |cs[1..]| ensures Later(n, cs[1..][k]) {
        assert cs[1..][k] == cs[k + 1] && Later(rows, cs[k + 1]);
      }
      assert InOrder(cs[1..]) by {
        forall i, j | 0 <= i < j < |cs[1..]| && Scope(cs[1..][i]) == Scope(cs[1..][j])
          ensures cs[1..][i].at < cs[1..][j].at {
          assert cs[1..][i] == cs[i + 1] && cs[1..][j] == cs[j + 1];
        }
      }
      hide Sound, Later, InOrder;
      OrderedChangesTile(n, cs[1..]);
    }
  }

  /** So from the empty table on. */
  lemma OrderedFromScratch(cs: seq<Change>)
    requires InOrder(cs)
    ensures Sound(Run([], cs)) && |Run([], cs)| == |cs|
  {
    forall scope ensures Unused([], scope) { }
    OrderedChangesTile([], cs);
  }

  // ----- which price is in force -----

  /** The same text, where none at all is the empty one. */
  predicate SameText(a: Option<string>, b: Option<string>) {
    a == b || (a in {None, Some("")} && b in {None, Some("")})
  }

  /** A row is in the scope of a change when provider and model both agree. */
  lemma ScopeExactly(r: Rate, c: Change)
    ensures In(r, Scope(c)) <==> SameText(r.provider, c.provider) && SameText(r.model, c.model)
  {
  }

  /** A change is refused exactly when its scope has a row from that very instant; else the row added carries
      what was asked, open from then on, and of the others just those open earlier in its scope end there. */
  lemma RepriceExactly(rows: seq<Rate>, c: Change)
    ensures Reprice(rows, c).Ok? <==> forall i :: 0 <= i < |rows| && In(rows[i], Scope(c)) ==> rows[i].from != c.at
    ensures Reprice(rows, c).Ok? ==>
      var n := Reprice(rows, c).value;
      && |n| == |rows| + 1 && n[|rows|] == Rate(c.provider, c.model, c.prices, c.at, None)
      && (forall i :: 0 <= i < |rows| ==>
            n[i] == rows[i].(to := if In(rows[i], Scope(c)) && rows[i].to.None? && rows[i].from < c.at
                                   then Some(c.at) else rows[i].to))
  {
  }

  lemma {:induction false} RunOneMore(rows: seq<Rate>, cs: seq<Change>, c: Change)
    ensures Run(rows, cs + [c]) == Apply(Run(rows, cs), c)
    decreases cs
  {
    hide Apply;
    if cs == [] {
      assert [] + [c] == [c] && [c][1..] == [];
    } else {
      assert (cs + [c])[1..] == cs[1..] + [c];
      RunOneMore(Apply(rows, cs[0]), cs[1..], c);
    }
  }

  /** The row of the k-th change: open while no later change of its scope came, else ended where the next begins. */
  predicate RowOf(r: Rate, cs: seq<Change>, k: nat)
    requires k < |cs|
  {
    && r.provider == cs[k].provider && r.model == cs[k].model && r.prices == cs[k].prices && r.from == cs[k].at
    && (r.to.None? ==> forall j :: k < j < |cs| ==> Scope(cs[j]) != Scope(cs[k]))
    && (r.to.Some? ==> (exists j :: k < j < |cs| && Scope(cs[j]) == Scope(cs[k]) && cs[j].at == r.to.value)
                       && forall j :: k < j < |cs| && Scope(cs[j]) == Scope(cs[k]) ==> r.to.value <= cs[j].at)
  }

  lemma {:induction false} RowsAreChanges(cs: seq<Change>)
    requires InOrder(cs)
    ensures |Run([], cs)| == |cs| && forall k :: 0 <= k < |cs| ==> RowOf(Run([], cs)[k], cs, k)
    decreases |cs|
  {
    if cs != [] {
      var before, c := cs[..|cs| - 1], cs[|cs| - 1];
      assert cs == before + [c];
      RowsAreChanges(before);
      RunOneMore([], before, c);
      RowsOneMore(Run([], before), before, c);
    }
  }

  lemma RowsOneMore(rows: seq<Rate>, cs: seq<Change>, c: Change)
    requires InOrder(cs + [c]) && |rows| == |cs| && forall k :: 0 <= k < |cs| ==> RowOf(rows[k], cs, k)
    ensures |Apply(rows, c)| == |cs| + 1 && forall k :: 0 <= k <= |cs| ==> RowOf(Apply(rows, c)[k], cs + [c], k)
  {
    var more := cs + [c];
    assert forall k :: 0 <= k < |cs| && Scope(cs[k]) == Scope(c) ==> more[k].at < more[|cs|].at;
    RepriceExactly(rows, c);
    var n := Apply(rows, c);
    forall k | 0 <= k < |cs| ensures RowOf(n[k], more, k) {
      assert RowOf(rows[k], cs, k) && more[k] == cs[k] && more[|cs|] == c;
      if rows[k].to.Some? {
        var j :| k < j < |cs| && Scope(cs[j]) == Scope(cs[k]) && cs[j].at == rows[k].to.value;
        assert more[j] == cs[j];
      }
    }
  }

  /** Changes made in order: at every instant the price in force is that of the latest change of the scope that
      has begun, and no other. */
  lemma PriceInForceExactly(cs: seq<Change>, scope: (string, string), k: nat, t: int)
    requires InOrder(cs) && k < |cs|
    ensures Applies(Run([], cs), scope, k, t) <==>
      && Scope(cs[k]) == scope && cs[k].at <= t
      && forall j :: k < j < |cs| && Scope(cs[j]) == scope ==> t < cs[j].at
    ensures |Run([], cs)| == |cs| && Run([], cs)[k].prices == cs[k].prices
  {
    RowsAreChanges(cs);
    var r := Run([], cs)[k];
    assert RowOf(r, cs, k);
  }

  /** Two changes of one scope in the wrong order are both accepted and leave two windows open. */
  lemma OutOfOrderLeavesTwoOpen(prices: Prices)
    ensures
      var scope := ("", "");
      var rows := Run([], [Change(None, None, prices, 10), Change(None, None, prices, 5)]);
      IsOpen(rows, scope, 0) && IsOpen(rows, scope, 1) && forall start :: !Tiled(rows, scope, start)
  {
    var first, second := Change(None, None, prices, 10), Change(None, None, prices, 5);
    var scope, rows := ("", ""), Run([], [first, second]);
    assert [first, second][1..] == [second] && [second][1..] == [];
    var one := Apply([], first);
    assert one == [Opened(first)] && Apply(one, second) == [Opened(first), Opened(second)];
    assert rows == Run(one, [second]) == Apply(one, second);
    assert Applies(rows, scope, 0, 10) && Applies(rows, scope, 1, 10);
  }

  /** The loop's progress: one more row as it is to be. */
  lemma ClosedStep(rows: seq<Rate>, c: Change, i: nat)
    requires i < |rows|
    ensures (Closed(rows, c)[..i] + rows[i..])[i] == rows[i]
    ensures (Closed(rows, c)[..i] + rows[i..])[i := Closed(rows, c)[i]] == Closed(rows, c)[..i + 1] + rows[i + 1..]
  {
  }

  // ----- the table -----

  class RateTable {
    var rows: seq<Rate>

    constructor ()
      ensures rows == []
    {
      rows := [];
    }

    /** Close the open windows of the scope, then insert; a clash on scope and start rolls both back. */
    method ApplyRate(c: Change) returns (refusal: Option<Error>)
      modifies this
      ensures Ended(old(rows), Reprice(old(rows), c), rows, refusal)
    {
      var before := rows;
      var i := 0;
      while i < |rows|
        invariant 0 <= i <= |rows| == |before|
        invariant rows == Closed(before, c)[..i] + before[i..]
      {
        ClosedStep(before, c, i);
        if Closes(rows[i], c) { rows := rows[i := rows[i].(to := Some(c.at))]; }
        i := i + 1;
      }
      if Taken(before, c) {
        rows := before;
        return Some(Conflict);
      }
      rows := rows + [Rate(c.provider, c.model, c.prices, c.at, None)];
      assert rows == Closed(before, c) + [Opened(c)];
      refusal := None;
    }

    /** `listRates`: all rows, or those in force now, the most specific scope and the latest start first. */
    method ListRates(now: int, includeHistory: bool) returns (listed: seq<Rate>)
      ensures multiset(listed) == multiset(if includeHistory then rows else Filter(rows, (r: Rate) => InForce(r, now)))
      ensures Sorted(listed)
    {
      listed := [];
      ghost var shown: seq<Rate> := [];
      var i := 0;
      while i < |rows|
        invariant 0 <= i <= |rows|
        invariant shown == if includeHistory then rows[..i] else Filter(rows[..i], (r: Rate) => InForce(r, now))
        invariant multiset(listed) == multiset(shown) && Sorted(listed)
      {
        assert rows[..i + 1] == rows[..i] + [rows[i]];
        FilterConcat(rows[..i], [rows[i]], (r: Rate) => InForce(r, now));
        if includeHistory || InForce(rows[i], now) {
          InsertedRate(listed, rows[i]);
          listed := InsertRate(listed, rows[i]);
          shown := shown + [rows[i]];
        }
        i := i + 1;
      }
      assert rows[..i] == rows;
    }
  }

  // ----- the order of a listing -----

  function Rank(r: Rate): int { (if r.model.Some? then 2 else 0) + (if r.provider.Some? then 1 else 0) }

  /** `(model_code is not null) desc, (provider_code is not null) desc, effective_from desc` */
  predicate AtLeastAsEarly(a: Rate, b: Rate) { Rank(a) > Rank(b) || (Rank(a) == Rank(b) && a.from >= b.from) }

  /** A rate for a model comes before any without, then one for a provider, then the one that starts later. */
  lemma ListedBySpecificity(a: Rate, b: Rate)
    ensures AtLeastAsEarly(a, b) <==>
      || (a.model.Some? && b.model.None?)
      || (a.model.Some? == b.model.Some?
          && ((a.provider.Some? && b.provider.None?)
              || (a.provider.Some? == b.provider.Some? && a.from >= b.from)))
  {
  }

  predicate Sorted(rs: seq<Rate>) {
    forall i, j :: 0 <= i < j < |rs| ==> AtLeastAsEarly(rs[i], rs[j])
  }

  function InsertRate(rs: seq<Rate>, r: Rate): seq<Rate> {
    if rs == [] || AtLeastAsEarly(r, rs[0]) then [r] + rs else [rs[0]] + InsertRate(rs[1..], r)
  }

  lemma {:induction false} InsertedRate(rs: seq<Rate>, r: Rate)
    requires Sorted(rs)
    ensures Sorted(InsertRate(rs, r)) && multiset(InsertRate(rs, r)) == multiset(rs) + multiset{r}
  {
    if rs != [] && !AtLeastAsEarly(r, rs[0]) {
      InsertedRate(rs[1..], r);
      assert rs == [rs[0]] + rs[1..];
      var tail := InsertRate(rs[1..], r);
      forall j | 0 <= j < |tail| ensures AtLeastAsEarly(rs[0], tail[j]) {
        assert tail[j] in multiset(tail);
        assert tail[j] == r || tail[j] in rs[1..];
      }
    }
  }
}
