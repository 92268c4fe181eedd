/** Cursor pagination of account activities: what is accepted from an arbitrary provider, and what is
    returned from one that serves a list faithfully.  Times are microseconds in UTC. */
module Pagination {
  import opened Common

  const DAY := 86_400_000_000

  datatype Stamp = Aware(utc: int) | NaiveStamp

  datatype Payload = Payload(id: string, isFill: bool, transactionTime: Option<Stamp>, date: Option<int>)

  datatype Failure = SchemaInvalid | NonMonotonic | WindowMismatch | Loop | LimitExceeded | Provider(code: nat)

  datatype Time = Exact(day: int, at: int) | DateOnly(day: int)

  datatype Window = Window(since: int, until: int)

  // ---- One payload ----

  /** A fill is timed by its instant, anything else by its date, and never by both. */
  function ProviderTime(x: Payload): Option<Time> {
    if x.isFill then
      if x.transactionTime.Some? && x.transactionTime.value.Aware? && x.date == None then
        Some(Exact(x.transactionTime.value.utc / DAY, x.transactionTime.value.utc))
      else None
    else if x.date.Some? && x.transactionTime == None then Some(DateOnly(x.date.value))
    else None
  }

  predicate IsSpace(c: char) {
    var n := c as int;
    9 <= n <= 13 || 28 <= n <= 32 || n == 0x85 || n == 0xa0 || n == 0x1680 || 0x2000 <= n <= 0x200a ||
    n == 0x2028 || n == 0x2029 || n == 0x202f || n == 0x205f || n == 0x3000
  }

  predicate Blank(id: string) {
    forall i :: 0 <= i < |id| ==> IsSpace(id[i])
  }

  predicate Late(t: Time, w: Window) {
    if t.Exact? then t.at > w.until else t.day > w.until / DAY
  }

  predicate InWindow(t: Time, w: Window) {
    !Late(t, w) && if t.Exact? then t.at >= w.since else t.day >= w.since / DAY
  }

  predicate Usable(x: Payload, w: Window) {
    ProviderTime(x).Some? && !Blank(x.id) && !Late(ProviderTime(x).value, w)
  }

  function TimeOf(x: Payload): Time
    requires ProviderTime(x).Some?
  {
    ProviderTime(x).value
  }

  // ---- A whole stream of payloads ----

  /** `y` may come after `x`: another id, no earlier day, and on one day no earlier exact time. */
  predicate MayFollow(x: Payload, y: Payload)
    requires ProviderTime(x).Some? && ProviderTime(y).Some?
  {
    && x.id != y.id
    && TimeOf(x).day <= TimeOf(y).day
    && (TimeOf(x).Exact? && TimeOf(y).Exact? && TimeOf(x).day == TimeOf(y).day ==> TimeOf(x).at <= TimeOf(y).at)
  }

  predicate Orderly(items: seq<Payload>, w: Window) {
    && (forall i :: 0 <= i < |items| ==> Usable(items[i], w))
    && (forall i, j :: 0 <= i < j < |items| ==> MayFollow(items[i], items[j]))
  }

  /** Exact times are in order across the whole stream, not only within a day. */
  lemma ExactTimesInOrder(items: seq<Payload>, w: Window, i: nat, j: nat)
    requires Orderly(items, w) && i < j < |items|
    requires items[i].isFill && items[j].isFill
    ensures TimeOf(items[i]).at <= TimeOf(items[j]).at
  {
    assert MayFollow(items[i], items[j]);
  }

  function Kept(items: seq<Payload>, w: Window): seq<Payload>
    requires forall x :: x in items ==> ProviderTime(x).Some?
  {
    if items == [] then []
    else
      var init, last := items[..|items| - 1], items[|items| - 1];
      Kept(init, w) + (if InWindow(TimeOf(last), w) then [last] else [])
  }

  /** What is kept is still in order, and is exactly what lies in the window. */
  lemma {:induction false} KeptIsOrderly(items: seq<Payload>, w: Window)
    requires Orderly(items, w)
    ensures Orderly(Kept(items, w), w)
    ensures forall x :: x in Kept(items, w) <==> x in items && ProviderTime(x).Some? && InWindow(TimeOf(x), w)
  {
    if items != [] {
      var init, last := items[..|items| - 1], items[|items| - 1];
      KeptIsOrderly(init, w);
      var kept := Kept(init, w);
      assert items == init + [last];
      forall i | 0 <= i < |kept| ensures MayFollow(kept[i], last) {
        assert kept[i] in init;
        var k :| 0 <= k < |init| && init[k] == kept[i];
        assert MayFollow(items[k], items[|items| - 1]);
      }
    }
  }

  // ---- The scan: what is remembered of the payloads so far ----

  datatype Scan = Scan(collected: seq<Payload>, seen: set<string>, lastDay: Option<int>, lastExact: map<int, int>)

  const FRESH := Scan([], {}, None, map[])

  ghost predicate Covers(scan: Scan, items: seq<Payload>, w: Window) {
    && Orderly(items, w)
    && scan.collected == Kept(items, w)
    && (forall id :: id in scan.seen <==> exists i :: 0 <= i < |items| && items[i].id == id)
    && scan.lastDay == (if items == [] then None else Some(TimeOf(items[|items| - 1]).day))
    && (forall i :: 0 <= i < |items| && TimeOf(items[i]).Exact? ==>
          && TimeOf(items[i]).day in scan.lastExact
          && TimeOf(items[i]).at <= scan.lastExact[TimeOf(items[i]).day])
    && (forall d :: d in scan.lastExact ==>
          exists i :: 0 <= i < |items| && TimeOf(items[i]) == Exact(d, scan.lastExact[d]))
  }

  /** The order checks of one payload against what is remembered. */
  predicate InOrder(scan: Scan, id: string, t: Time) {
    && !Blank(id) && id !in scan.seen
    && (scan.lastDay.Some? ==> scan.lastDay.value <= t.day)
    && (t.Exact? && t.day in scan.lastExact ==> scan.lastExact[t.day] <= t.at)
  }

  /** The remembered facts are enough to check a payload against every earlier one. */
  lemma InOrderExactly(scan: Scan, items: seq<Payload>, x: Payload, w: Window)
    requires Covers(scan, items, w) && ProviderTime(x).Some?
    ensures InOrder(scan, x.id, TimeOf(x)) && !Late(TimeOf(x), w) <==> Orderly(items + [x], w)
  {
    var all := items + [x];
    if InOrder(scan, x.id, TimeOf(x)) && !Late(TimeOf(x), w) {
      forall i, j | 0 <= i < j < |all| ensures MayFollow(all[i], all[j]) {
        if j == |items| {
          assert all[i] == items[i] && all[j] == x;
          assert i < |items| - 1 ==> MayFollow(items[i], items[|items| - 1]);
        }
      }
    }
    if Orderly(all, w) {
      assert Usable(all[|items|], w);
      forall i | 0 <= i < |items| ensures MayFollow(items[i], x) {
        assert MayFollow(all[i], all[|items|]);
      }
    }
  }

  lemma ScanGrows(scan: Scan, items: seq<Payload>, x: Payload, w: Window, next: Scan)
    requires Covers(scan, items, w) && ProviderTime(x).Some? && Orderly(items + [x], w)
    requires next.seen == scan.seen + {x.id} && next.lastDay == Some(TimeOf(x).day)
    requires next.lastExact == if TimeOf(x).Exact? then scan.lastExact[TimeOf(x).day := TimeOf(x).at] else scan.lastExact
    requires next.collected == scan.collected + (if InWindow(TimeOf(x), w) then [x] else [])
    ensures Covers(next, items + [x], w)
  {
    var all := items + [x];
    assert all[..|items|] == items && all[|items|] == x;
    assert forall i :: 0 <= i < |items| ==> all[i] == items[i] && MayFollow(all[i], all[|items|]);
    forall id ensures id in next.seen <==> exists i :: 0 <= i < |all| && all[i].id == id {
      if id in scan.seen {
        var i :| 0 <= i < |items| && items[i].id == id;
        assert all[i].id == id;
      }
      assert all[|items|].id == x.id;
    }
    forall d | d in next.lastExact ensures exists i :: 0 <= i < |all| && TimeOf(all[i]) == Exact(d, next.lastExact[d]) {
      if TimeOf(x).Exact? && d == TimeOf(x).day {
        assert TimeOf(all[|items|]) == Exact(d, next.lastExact[d]);
      } else {
        var i :| 0 <= i < |items| && TimeOf(items[i]) == Exact(d, scan.lastExact[d]);
        assert all[i] == items[i];
      }
    }
  }

  lemma PrefixOrderly(items: seq<Payload>, k: nat, w: Window)
    requires k <= |items|
    ensures Orderly(items, w) ==> Orderly(items[..k], w)
  {
  }

  /** One payload, read after `done`. */
  method ReadPayload(scan: Scan, x: Payload, w: Window, ghost done: seq<Payload>) returns (r: Result<Scan, Failure>)
    requires Covers(scan, done, w)
    ensures r.Ok? <==> Orderly(done + [x], w)
    ensures r.Ok? ==> Covers(r.value, done + [x], w)
    ensures r.Err? ==> r.error == SchemaInvalid || r.error == NonMonotonic || r.error == WindowMismatch
  {
    var time := ProviderTime(x);
    if time == None {
      assert !Usable((done + [x])[|done|], w);
      return Err(SchemaInvalid);
    }
    InOrderExactly(scan, done, x, w);
    if !InOrder(scan, x.id, time.value) {
      return Err(NonMonotonic);
    }
    if Late(time.value, w) {
      return Err(WindowMismatch);
    }
    var exact := if time.value.Exact? then scan.lastExact[time.value.day := time.value.at] else scan.lastExact;
    var kept := if InWindow(time.value, w) then [x] else [];
    var next := Scan(scan.collected + kept, scan.seen + {x.id}, Some(time.value.day), exact);
    ScanGrows(scan, done, x, w, next);
    return Ok(next);
  }

  lemma OneFurther(before: seq<Payload>, page: seq<Payload>, i: nat, w: Window)
    requires i < |page|
    ensures before + page[..i + 1] == (before + page[..i]) + [page[i]]
    ensures Orderly(before + page, w) ==> Orderly(before + page[..i + 1], w)
  {
    PrefixOrderly(before + page, |before| + i + 1, w);
    assert (before + page)[..|before| + i + 1] == before + page[..i + 1];
  }

  /** One page, read after `before`. */
  method ReadPage(scan: Scan, page: seq<Payload>, w: Window, ghost before: seq<Payload>)
    returns (r: Result<Scan, Failure>)
    requires Covers(scan, before, w)
    ensures r.Ok? <==> Orderly(before + page, w)
    ensures r.Ok? ==> Covers(r.value, before + page, w)
    ensures r.Err? ==> r.error == SchemaInvalid || r.error == NonMonotonic || r.error == WindowMismatch
  {
    var current := scan;
    var i := 0;
    assert before + page[..0] == before;
    while i < |page|
      invariant 0 <= i <= |page| && Covers(current, before + page[..i], w)
    {
      OneFurther(before, page, i, w);
      var next := ReadPayload(current, page[i], w, before + page[..i]);
      if next.Err? {
        return next;
      }
      current := next.value;
      i := i + 1;
    }
    assert page[..|page|] == page;
    return Ok(current);
  }

  // ---- Pages ----

  /** A provider answers the `i`-th request, given the cursor it was sent. */
  type Answers = (nat, Option<string>) -> Result<seq<Payload>, nat>

  function Cursor(page: Result<seq<Payload>, nat>): Option<string> {
    if page.Ok? && page.value != [] then Some(page.value[|page.value| - 1].id) else None
  }

  /** The `i`-th answer, each request carrying the last id of the page before. */
  function PageAt(p: Answers, i: nat): Result<seq<Payload>, nat> {
    p(i, if i == 0 then None else Cursor(PageAt(p, i - 1)))
  }

  function Items(p: Answers, n: nat): seq<Payload> {
    if n == 0 then []
    else Items(p, n - 1) + (if PageAt(p, n - 1).Ok? then PageAt(p, n - 1).value else [])
  }

  predicate LongPage(p: Answers, size: nat, i: nat) {
    PageAt(p, i).Ok? && |PageAt(p, i).value| >= size
  }

  /** The first `n` pages arrived and none was short. */
  predicate Full(p: Answers, size: nat, n: nat) {
    forall i: nat :: i < n ==> LongPage(p, size, i)
  }

  /** The `n`-th page is the first short one. */
  predicate Finishes(p: Answers, size: nat, n: nat) {
    n > 0 && Full(p, size, n - 1) && PageAt(p, n - 1).Ok? && |PageAt(p, n - 1).value| < size
  }

  predicate Completes(p: Answers, size: nat, limit: nat, w: Window, n: nat) {
    n <= limit && Finishes(p, size, n) && Orderly(Items(p, n), w)
  }

  lemma FinishesOnce(p: Answers, size: nat, m: nat, n: nat)
    ensures Finishes(p, size, n) && Full(p, size, m) ==> m < n
    ensures Finishes(p, size, n) && Finishes(p, size, m) ==> m == n
  {
    if Finishes(p, size, n) {
      assert !LongPage(p, size, n - 1);
    }
    if Finishes(p, size, m) {
      assert !LongPage(p, size, m - 1);
    }
  }

  lemma {:induction false} ItemsGrow(p: Answers, m: nat, n: nat)
    requires m <= n
    ensures Items(p, m) <= Items(p, n)
  {
    if m < n {
      ItemsGrow(p, m, n - 1);
    }
  }

  /** A page that never came rules out every later end. */
  lemma MissingPage(p: Answers, size: nat, m: nat, n: nat)
    requires Full(p, size, m) && PageAt(p, m).Err?
    ensures !Finishes(p, size, n)
  {
    FinishesOnce(p, size, m, n);
    assert !LongPage(p, size, m);
  }

  /** A disorder in the first pages is a disorder of every completion. */
  lemma EarlyDisorder(p: Answers, size: nat, w: Window, m: nat, n: nat)
    requires Full(p, size, m) && !Orderly(Items(p, m + 1), w) && Finishes(p, size, n)
    ensures !Orderly(Items(p, n), w)
  {
    FinishesOnce(p, size, m, n);
    ItemsGrow(p, m + 1, n);
    PrefixOrderly(Items(p, n), |Items(p, m + 1)|, w);
  }

  /** The cursors used so far. */
  ghost predicate Used(p: Answers, tokens: set<string>, n: nat) {
    forall t :: t in tokens ==> exists i: nat :: i < n && Cursor(PageAt(p, i)) == Some(t)
  }

  lemma CursorIsLast(p: Answers, size: nat, i: nat)
    requires size > 0 && LongPage(p, size, i)
    ensures |Items(p, i + 1)| > |Items(p, i)|
    ensures Cursor(PageAt(p, i)) == Some(Items(p, i + 1)[|Items(p, i + 1)| - 1].id)
  {
  }

  /** Ids are unique, so the cursor of a new page cannot have been used before. */
  lemma CursorIsNew(p: Answers, size: nat, n: nat, i: nat, w: Window)
    requires size > 0 && i < n && LongPage(p, size, i) && LongPage(p, size, n) && Orderly(Items(p, n + 1), w)
    ensures Cursor(PageAt(p, i)) != Cursor(PageAt(p, n))
  {
    var items := Items(p, n + 1);
    var a, b := |Items(p, i + 1)| - 1, |items| - 1;
    ItemsGrow(p, i + 1, n);
    CursorIsLast(p, size, i);
    CursorIsLast(p, size, n);
    assert items[a] == Items(p, i + 1)[a];
    assert MayFollow(items[a], items[b]);
  }

  lemma NextCursor(p: Answers, size: nat, n: nat, tokens: set<string>, w: Window)
    requires size > 0 && Full(p, size, n) && LongPage(p, size, n) && Orderly(Items(p, n + 1), w)
    requires Used(p, tokens, n)
    ensures Cursor(PageAt(p, n)).Some? && Cursor(PageAt(p, n)).value !in tokens + {""}
    ensures Used(p, tokens + {Cursor(PageAt(p, n)).value}, n + 1)
  {
    var items := Items(p, n + 1);
    CursorIsLast(p, size, n);
    assert Usable(items[|items| - 1], w);
    if Cursor(PageAt(p, n)).value in tokens {
      var i: nat :| i < n && Cursor(PageAt(p, i)) == Cursor(PageAt(p, n));
      assert LongPage(p, size, i);
      CursorIsNew(p, size, n, i, w);
    }
  }

  lemma PageTurns(p: Answers, size: nat, n: nat, tokens: set<string>, w: Window, page: seq<Payload>, next: string)
    requires size > 0 && Full(p, size, n) && PageAt(p, n) == Ok(page) && |page| >= size
    requires Orderly(Items(p, n + 1), w) && Used(p, tokens, n) && next == page[|page| - 1].id
    ensures next != "" && next !in tokens && Used(p, tokens + {next}, n + 1)
    ensures Full(p, size, n + 1) && Cursor(PageAt(p, n)) == Some(next)
  {
    assert LongPage(p, size, n);
    NextCursor(p, size, n, tokens, w);
  }

  /** Where a failed listing failed: at the first request that failed, at the first page that is out of
      order, or after as many long pages as are allowed. */
  ghost predicate Cause(p: Answers, size: nat, limit: nat, w: Window, e: Failure) {
    match e
    case LimitExceeded => Full(p, size, limit) && Orderly(Items(p, limit), w)
    case Loop => false
    case Provider(code) => exists m: nat :: m < limit && Full(p, size, m) && Orderly(Items(p, m), w) && PageAt(p, m) == Err(code)
    case _ => exists m: nat :: m < limit && Full(p, size, m) && Orderly(Items(p, m), w) && !Orderly(Items(p, m + 1), w)
  }

  ghost predicate Possible(p: Answers, size: nat, limit: nat, w: Window) {
    exists n: nat :: Completes(p, size, limit, w, n)
  }

  lemma NotPossible(p: Answers, size: nat, limit: nat, w: Window, m: nat)
    requires Full(p, size, m)
    requires m == limit || PageAt(p, m).Err? || !Orderly(Items(p, m + 1), w)
    ensures !Possible(p, size, limit, w)
  {
    forall n: nat ensures !Completes(p, size, limit, w, n) {
      FinishesOnce(p, size, m, n);
      if m != limit && PageAt(p, m).Err? {
        MissingPage(p, size, m, n);
      } else if m != limit && Finishes(p, size, n) {
        EarlyDisorder(p, size, w, m, n);
      }
    }
  }

  /** The loop's variables after `n` long pages. */
  ghost predicate Progress(p: Answers, w: Window, size: nat, n: nat, s: State) {
    && Full(p, size, n) && Covers(s.scan, Items(p, n), w) && Used(p, s.tokens, n)
    && s.token == if n == 0 then None else Cursor(PageAt(p, n - 1))
  }

  datatype State = State(scan: Scan, token: Option<string>, tokens: set<string>)

  datatype Turn = More(state: State) | Last(collected: seq<Payload>) | Failed(failure: Failure)

  /** One request: the page, and what is remembered after it. */
  method TakePage(p: Answers, w: Window, ghost size: nat, ghost limit: nat, i: nat, s: State)
    returns (r: Result<(Scan, seq<Payload>), Failure>)
    requires i < limit && Progress(p, w, size, i, s)
    ensures r.Ok? ==> PageAt(p, i) == Ok(r.value.1) && Covers(r.value.0, Items(p, i + 1), w)
    ensures r.Err? ==> !Possible(p, size, limit, w) && Cause(p, size, limit, w, r.error)
  {
    var answer := p(i, s.token);
    assert answer == PageAt(p, i);
    if answer.Err? {
      NotPossible(p, size, limit, w, i);
      return Err(Provider(answer.error));
    }
    assert Items(p, i + 1) == Items(p, i) + answer.value;
    var read := ReadPage(s.scan, answer.value, w, Items(p, i));
    if read.Err? {
      NotPossible(p, size, limit, w, i);
      return Err(read.error);
    }
    return Ok((read.value, answer.value));
  }

  method TakeTurn(p: Answers, w: Window, size: nat, ghost limit: nat, i: nat, s: State) returns (t: Turn)
    requires size > 0 && i < limit && Progress(p, w, size, i, s)
    ensures t.More? ==> Progress(p, w, size, i + 1, t.state)
    ensures t.Last? ==> Completes(p, size, limit, w, i + 1) && t.collected == Kept(Items(p, i + 1), w)
    ensures t.Failed? ==> !Possible(p, size, limit, w) && Cause(p, size, limit, w, t.failure)
  {
    var taken := TakePage(p, w, size, limit, i, s);
    if taken.Err? {
      return Failed(taken.error);
    }
    var page := taken.value.1;
    if |page| < size {
      return Last(taken.value.0.collected);
    }
    var next := page[|page| - 1].id;
    PageTurns(p, size, i, s.tokens, w, page, next);
    if next == "" || next in s.tokens {
      assert false;
      return Failed(Loop);
    }
    return More(State(taken.value.0, Some(next), s.tokens + {next}));
  }

  /** Succeeds exactly when some page is short within the limit and all payloads up to it are in order;
      the result is then what those payloads have in the window, and the repeated-cursor error never
      happens. */
  method ListPayloads(p: Answers, w: Window, size: nat, limit: nat)
    returns (r: Result<(seq<Payload>, nat), Failure>)
    requires 1 <= size <= 100 && 1 <= limit <= 100
    ensures r.Ok? <==> Possible(p, size, limit, w)
    ensures r.Ok? ==> Completes(p, size, limit, w, r.value.1) && r.value.0 == Kept(Items(p, r.value.1), w)
    ensures r.Err? ==> Cause(p, size, limit, w, r.error)
  {
    var state, i := State(FRESH, None, {}), 0;
    while i < limit
      invariant 0 <= i <= limit && Progress(p, w, size, i, state)
    {
      var turn := TakeTurn(p, w, size, limit, i, state);
      match turn
      case Failed(e) => return Err(e);
      case Last(collected) => return Ok((collected, i + 1));
      case More(next) => state, i := next, i + 1;
    }
    NotPossible(p, size, limit, w, limit);
    return Err(LimitExceeded);
  }

  // ---- A faithful provider ----

  function Past(all: seq<Payload>, token: string): seq<Payload> {
    if all == [] then []
    else if all[0].id == token then all[1..]
    else Past(all[1..], token)
  }

  function Following(all: seq<Payload>, token: Option<string>): seq<Payload> {
    if token == None then all else Past(all, token.value)
  }

  function FirstOf(s: seq<Payload>, n: nat): seq<Payload> {
    if |s| <= n then s else s[..n]
  }

  predicate ServesAt(p: Answers, all: seq<Payload>, size: nat, i: nat, token: Option<string>) {
    p(i, token) == Ok(FirstOf(Following(all, token), size))
  }

  /** Each request is answered with the next items of one fixed list after the cursor. */
  ghost predicate Serves(p: Answers, all: seq<Payload>, size: nat) {
    forall i: nat, token: Option<string> :: ServesAt(p, all, size, i, token)
  }

  lemma {:induction false} PastFinds(all: seq<Payload>, k: nat)
    requires k < |all| && forall i :: 0 <= i < k ==> all[i].id != all[k].id
    ensures Past(all, all[k].id) == all[k + 1..]
  {
    if k > 0 {
      assert all[1..][k - 1] == all[k];
      PastFinds(all[1..], k - 1);
      assert all[1..][k - 1 + 1..] == all[k + 1..];
    }
  }

  /** Where page `n` begins. */
  function Start(size: nat, n: nat): nat {
    if n == 0 then 0 else Start(size, n - 1) + size
  }

  lemma CursorFinds(all: seq<Payload>, at: nat, w: Window)
    requires 0 < at <= |all| && Orderly(all[..at], w)
    ensures Following(all, Some(all[at - 1].id)) == all[at..]
  {
    var prefix := all[..at];
    forall i | 0 <= i < at - 1 ensures all[i].id != all[at - 1].id {
      assert MayFollow(prefix[i], prefix[at - 1]);
    }
    PastFinds(all, at - 1);
  }

  lemma AnswerAfter(p: Answers, all: seq<Payload>, size: nat, n: nat, at: nat)
    requires Serves(p, all, size) && n > 0 && 0 < at <= |all|
    requires Cursor(PageAt(p, n - 1)) == Some(all[at - 1].id)
    requires Following(all, Some(all[at - 1].id)) == all[at..]
    ensures PageAt(p, n) == Ok(FirstOf(all[at..], size))
  {
    assert ServesAt(p, all, size, n, Some(all[at - 1].id));
  }

  lemma FirstPage(p: Answers, all: seq<Payload>, size: nat)
    requires Serves(p, all, size)
    ensures PageAt(p, 0) == Ok(FirstOf(all, size)) && all[0..] == all
  {
    assert ServesAt(p, all, size, 0, None);
  }

  lemma CursorReached(p: Answers, all: seq<Payload>, size: nat, n: nat, at: nat)
    requires size > 0 && n > 0 && 0 < at <= |all| && LongPage(p, size, n - 1) && Items(p, n) == all[..at]
    ensures Cursor(PageAt(p, n - 1)) == Some(all[at - 1].id)
  {
    CursorIsLast(p, size, n - 1);
  }

  lemma PageAfter(p: Answers, all: seq<Payload>, size: nat, w: Window, n: nat, at: nat)
    requires size > 0 && Serves(p, all, size) && at <= |all| && (n == 0 <==> at == 0)
    requires (n > 0 ==> LongPage(p, size, n - 1)) && Items(p, n) == all[..at] && Orderly(all[..at], w)
    ensures PageAt(p, n) == Ok(FirstOf(all[at..], size))
  {
    if n == 0 {
      FirstPage(p, all, size);
    } else {
      CursorReached(p, all, size, n, at);
      CursorFinds(all, at, w);
      AnswerAfter(p, all, size, n, at);
    }
  }

  lemma OneMorePage(all: seq<Payload>, size: nat, at: nat)
    requires at <= |all|
    ensures at + size <= |all| ==> all[..at] + FirstOf(all[at..], size) == all[..at + size]
    ensures at + size > |all| ==> all[..at] + FirstOf(all[at..], size) == all
    ensures |FirstOf(all[at..], size)| < size <==> at + size > |all|
  {
  }

  /** What has been read in order from a faithful provider is a prefix of its list. */
  lemma {:induction false} ReadsPrefix(p: Answers, all: seq<Payload>, size: nat, w: Window, n: nat)
    requires size > 0 && Serves(p, all, size) && Full(p, size, n) && Orderly(Items(p, n), w)
    ensures Start(size, n) <= |all| && Items(p, n) == all[..Start(size, n)]
    ensures PageAt(p, n) == Ok(FirstOf(all[Start(size, n)..], size))
  {
    if n > 0 {
      ItemsGrow(p, n - 1, n);
      PrefixOrderly(Items(p, n), |Items(p, n - 1)|, w);
      ReadsPrefix(p, all, size, w, n - 1);
      OneMorePage(all, size, Start(size, n - 1));
      assert LongPage(p, size, n - 1);
    }
    PageAfter(p, all, size, w, n, Start(size, n));
  }

  /** An orderly list is read page by page, as far as its full pages go. */
  lemma {:induction false} ReadsForward(p: Answers, all: seq<Payload>, size: nat, w: Window, n: nat)
    requires size > 0 && Serves(p, all, size) && Orderly(all, w) && Start(size, n) <= |all|
    ensures Full(p, size, n) && Items(p, n) == all[..Start(size, n)]
    ensures PageAt(p, n) == Ok(FirstOf(all[Start(size, n)..], size))
  {
    if n > 0 {
      OneMorePage(all, size, Start(size, n - 1));
      ReadsForward(p, all, size, w, n - 1);
      assert LongPage(p, size, n - 1);
    }
    PrefixOrderly(all, Start(size, n), w);
    PageAfter(p, all, size, w, n, Start(size, n));
  }

  lemma {:induction false} StartIsProduct(size: nat, n: nat)
    ensures Start(size, n) == n * size
  {
    if n > 0 {
      StartIsProduct(size, n - 1);
      assert (n - 1) * size + size == n * size;
    }
  }

  lemma {:induction false} StartGrows(size: nat, m: nat, n: nat)
    requires m <= n
    ensures Start(size, m) <= Start(size, n)
  {
    if m < n {
      StartGrows(size, m, n - 1);
    }
  }

  /** The last page begins at the greatest multiple of the page size within the list. */
  lemma PageCount(total: nat, size: nat, n: nat)
    requires size > 0
    ensures Start(size, n) <= total < Start(size, n) + size <==> total / size == n
  {
    var q := total / size;
    assert total == q * size + total % size;
    StartIsProduct(size, q);
    if q < n {
      StartGrows(size, q + 1, n);
    } else if n < q {
      StartGrows(size, n + 1, q);
    }
  }

  lemma ShortPageEnds(p: Answers, all: seq<Payload>, size: nat, n: nat, at: nat)
    requires n > 0 && at <= |all| && Items(p, n - 1) == all[..at]
    requires PageAt(p, n - 1) == Ok(FirstOf(all[at..], size)) && |FirstOf(all[at..], size)| < size
    ensures Items(p, n) == all && |all| < at + size
  {
    OneMorePage(all, size, at);
  }

  /** What completes from a faithful provider is its whole list, over one page more than its full pages. */
  lemma FaithfulCompletion(p: Answers, all: seq<Payload>, size: nat, limit: nat, w: Window, n: nat)
    requires size > 0 && Serves(p, all, size) && Completes(p, size, limit, w, n)
    ensures Items(p, n) == all && n == |all| / size + 1
  {
    ItemsGrow(p, n - 1, n);
    PrefixOrderly(Items(p, n), |Items(p, n - 1)|, w);
    ReadsPrefix(p, all, size, w, n - 1);
    ShortPageEnds(p, all, size, n, Start(size, n - 1));
    PageCount(|all|, size, n - 1);
  }

  lemma FaithfulSuccess(p: Answers, all: seq<Payload>, size: nat, limit: nat, w: Window, n: nat)
    requires size > 0 && Serves(p, all, size) && Orderly(all, w)
    requires Start(size, n) <= |all| < Start(size, n) + size && n + 1 <= limit
    ensures Completes(p, size, limit, w, n + 1)
  {
    ReadsForward(p, all, size, w, n);
    OneMorePage(all, size, Start(size, n));
    assert Items(p, n + 1) == all;
  }

  /** From a faithful provider the listing succeeds exactly when the list is in order and has few enough
      pages, and returns exactly the items in the window, in the list's order. */
  lemma FaithfulExactly(p: Answers, all: seq<Payload>, size: nat, limit: nat, w: Window)
    requires size > 0 && Serves(p, all, size)
    ensures Possible(p, size, limit, w) <==> Orderly(all, w) && |all| / size + 1 <= limit
    ensures forall n: nat :: Completes(p, size, limit, w, n) ==> Items(p, n) == all && n == |all| / size + 1
  {
    forall n: nat | Completes(p, size, limit, w, n) ensures Items(p, n) == all && n == |all| / size + 1 {
      FaithfulCompletion(p, all, size, limit, w, n);
    }
    if Orderly(all, w) && |all| / size + 1 <= limit {
      PageCount(|all|, size, |all| / size);
      FaithfulSuccess(p, all, size, limit, w, |all| / size);
    }
  }
}
