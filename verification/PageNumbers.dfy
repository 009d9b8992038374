/** Pages fetched by number, until the server promises no more.

    The loop reads a prefix of the pages that follow the first one. How it ends, and what
    it reports, is told by those pages alone. */
module PageNumbers {
  import opened Options
  import opened Decimal
  import opened Payload
  import opened Pagination

  function IncrementInt(value: int): Option<int> {
    if value == MAX_INT64 then None else Some(value + 1)
  }

  predicate IsInt64(n: int) { MIN_INT64 <= n <= MAX_INT64 }

  function ToInt(v: Value): Option<int> {
    if v.Whole? && IsInt64(v.number) then Some(v.number) else None
  }

  function ToInt64(m: Payload, key: string): int {
    if key in m && ToInt(m[key]).Some? then ToInt(m[key]).value else 0
  }

  function PaginationOf(p: Payload): Option<Payload> {
    if "pagination" in p && p["pagination"].Object? then Some(p["pagination"].fields) else None
  }

  predicate HasMore(p: Payload) {
    var pg := PaginationOf(p);
    pg.Some? && "has_more" in pg.value && pg.value["has_more"] == Flag(true)
  }

  /** The promised total: in the pagination object, else at top level, else 0. */
  function TotalOf(first: Payload): int {
    var pg := PaginationOf(first);
    var inner := if pg.Some? then ToInt64(pg.value, "total") else 0;
    if inner == 0 then ToInt64(first, "total") else inner
  }

  /** The total moves to the top level, the pagination object goes. */
  function Flatten(m: Payload): Payload {
    match PaginationOf(m)
    case None => m
    case Some(pg) =>
      (if "total" !in m && "total" in pg && pg["total"].Whole? && pg["total"].number > 0 then m["total" := pg["total"]]
       else m) - {"pagination"}
  }

  /** The pages a loop reads, why it ends, and at which page number. */
  datatype Turns = CallBroken | OutOfRange | Turns(pages: seq<Payload>, count: nat, stop: Stop, page: int)

  function Before(p: Payload, w: Turns): Turns {
    if w.Turns? then w.(pages := [p] + w.pages) else w
  }

  predicate Enough(total: int, length: nat) { total > 0 && length >= total }

  /** The loop of `paginateByPageNum`. */
  function Turn(server: int -> Reply, f: string, total: int, page: int, count: nat, streak: nat, length: nat): Turns
    requires 1 <= count <= MAX_PAGES
    decreases MAX_PAGES - count
  {
    if count >= MAX_PAGES then Turns([], count, PageCap, page)
    else if Enough(total, length) then Turns([], count, TotalReached, page)
    else if IncrementInt(page).None? then OutOfRange
    else match server(page + 1)
      case Failure => CallBroken
      case NotObject => Turns([], count, NotAnObject, page + 1)
      case Page(p) =>
        if !HasMore(p) then Turns([p], count + 1, Exhausted, page + 1) else
          var s := if IsEmptyPage(p, f) then streak + 1 else 0;
          if s >= MAX_EMPTY_STREAK then Turns([p], count + 1, EmptyPages, page + 1)
          else Before(p, Turn(server, f, total, page + 1, count + 1, s, length + |ListOf(p, f)|))
  }

  /** The first page number: the caller's if given, else 1. */
  function StartPage(pageNum: Option<Value>): Option<int> {
    match pageNum
    case None => Some(1)
    case Some(raw) =>
      match ToInt(raw)
      case None => None
      case Some(n) => if n < 1 then None else Some(n)
  }

  function RunTurns(server: int -> Reply, f: string, first: Payload, start: int): Turns {
    Turn(server, f, TotalOf(first), start, 1, 0, |ListOf(first, f)|)
  }

  /** What `paginateByPageNum` returns. */
  function NumberRun(server: int -> Reply, f: string, first: Payload, declared: bool, pageNum: Option<Value>): Result {
    if !HasMore(first) || !declared then Untouched
    else if StartPage(pageNum).None? then InvalidPage
    else
      var w := RunTurns(server, f, first, StartPage(pageNum).value);
      match w
      case CallBroken => CallFailed
      case OutOfRange => InvalidPage
      case Turns(pages, count, stop, page) =>
        var merged := Flatten(MergeAll([first] + pages));
        Merged(merged, Meta(count, |ListOf(merged, f)|, stop.PageCap?, "",
                            if stop.PageCap? then IncrementInt(page) else None, stop.EmptyPages?))
  }

  ghost predicate TrustedPages(shape: string -> Kind, f: string, server: int -> Reply) {
    forall n :: server(n).Page? ==> WellShaped(shape, f, server(n).payload)
  }

  lemma FlattenKeepsList(shape: string -> Kind, f: string, m: Payload)
    requires WellShaped(shape, f, m) && PaginationOf(m).Some?
    ensures ListOf(Flatten(m), f) == ListOf(m, f)
    ensures forall n: nat :: IsLength(Flatten(m), n) ==> n == |ListOf(m, f)|
  {
    assert KindOf(m["pagination"]) == ObjectKind;
    var flat := Flatten(m);
    assert f in flat && flat[f] == m[f];
    assert forall k :: IsList(flat, k) ==> IsList(m, k);
    if f in LIST_FIELD_PRIORITY {
      var i :| 0 <= i < 3 && LIST_FIELD_PRIORITY[i] == f;
      assert FirstList(flat, i);
    }
    assert IsList(flat, f);
  }

  /** Whether the loop is still turning, or how it ended. */
  ghost predicate TurnedUntil(server: int -> Reply, f: string, first: Payload, start: int, pages: seq<Payload>,
                              page: int, count: nat, streak: nat, length: nat, done: Option<Stop>)
  {
    1 <= count <= MAX_PAGES &&
    var whole := RunTurns(server, f, first, start);
    match done
    case None =>
      var rest := Turn(server, f, TotalOf(first), page, count, streak, length);
      if rest.Turns? then whole == rest.(pages := pages + rest.pages) else whole == rest
    case Some(stop) => whole == Turns(pages, count, stop, page)
  }

  lemma StartTurning(server: int -> Reply, f: string, first: Payload, start: int)
    ensures TurnedUntil(server, f, first, start, [], start, 1, 0, |ListOf(first, f)|, None)
  {
    hide HasMore, TotalOf, IncrementInt, Enough;
    var w := RunTurns(server, f, first, start);
    if w.Turns? { assert [] + w.pages == w.pages; }
  }

  lemma StopTurning(server: int -> Reply, f: string, first: Payload, start: int, pages: seq<Payload>, page: int,
                    count: nat, streak: nat, length: nat)
    requires TurnedUntil(server, f, first, start, pages, page, count, streak, length, None)
    ensures count >= MAX_PAGES ==>
              TurnedUntil(server, f, first, start, pages, page, count, streak, length, Some(PageCap))
    ensures count < MAX_PAGES && Enough(TotalOf(first), length) ==>
              TurnedUntil(server, f, first, start, pages, page, count, streak, length, Some(TotalReached))
    ensures count < MAX_PAGES && !Enough(TotalOf(first), length) && IncrementInt(page).None? ==>
              RunTurns(server, f, first, start).OutOfRange?
    ensures count < MAX_PAGES && !Enough(TotalOf(first), length) && IncrementInt(page).Some? ==>
              (server(page + 1).Failure? ==> RunTurns(server, f, first, start).CallBroken?) &&
              (server(page + 1).NotObject? ==>
                 TurnedUntil(server, f, first, start, pages, page + 1, count, streak, length, Some(NotAnObject)))
  {
    hide HasMore, TotalOf, IncrementInt, Enough, IsEmptyPage, ListOf;
    assert pages + [] == pages;
  }

  lemma NextTurn(server: int -> Reply, f: string, first: Payload, start: int, pages: seq<Payload>, page: int,
                 count: nat, streak: nat, length: nat)
    requires TurnedUntil(server, f, first, start, pages, page, count, streak, length, None)
    requires count < MAX_PAGES && !Enough(TotalOf(first), length) && IncrementInt(page).Some? && server(page + 1).Page?
    ensures var p := server(page + 1).payload;
            var s := if IsEmptyPage(p, f) then streak + 1 else 0;
            TurnedUntil(server, f, first, start, pages + [p], page + 1, count + 1, s, length + |ListOf(p, f)|,
                        if !HasMore(p) then Some(Exhausted)
                        else if s >= MAX_EMPTY_STREAK then Some(EmptyPages)
                        else None)
  {
    hide HasMore, TotalOf, IncrementInt, Enough, IsEmptyPage, ListOf;
    var p := server(page + 1).payload;
    var s := if IsEmptyPage(p, f) then streak + 1 else 0;
    if HasMore(p) && s < MAX_EMPTY_STREAK {
      var rest := Turn(server, f, TotalOf(first), page + 1, count + 1, s, length + |ListOf(p, f)|);
      if rest.Turns? { assert pages + ([p] + rest.pages) == pages + [p] + rest.pages; }
    }
  }

  /** The items merged so far are those of the pages, and the pagination object is there. */
  lemma MergedLength(shape: string -> Kind, f: string, first: Payload, pages: seq<Payload>, merged: Payload)
    requires Collected(shape, f, [first] + pages, merged) && PaginationOf(first).Some?
    ensures WellShaped(shape, f, merged) && |ListOf(merged, f)| == |Lists([first] + pages, f)|
    ensures PaginationOf(merged).Some?
  {
    MergedLists(shape, f, [first] + pages, merged);
    assert ([first] + pages)[0] == first;
    FieldsOfMerge([first] + pages, "pagination");
    assert KindOf(first["pagination"]) == ObjectKind;
  }

  lemma ListsOne(first: Payload, pages: seq<Payload>, p: Payload, f: string)
    ensures Lists([first] + (pages + [p]), f) == Lists([first] + pages, f) + ListOf(p, f)
    ensures Lists([first], f) == ListOf(first, f)
  {
    var all := [first] + (pages + [p]);
    assert all[..|all| - 1] == [first] + pages;
    assert [first][..0] == [] && Lists([], f) == [];
  }

  /** The loop's state: what is merged, how many items that is, and where the run stands. */
  ghost predicate Turning(server: int -> Reply, shape: string -> Kind, f: string, first: Payload, start: int,
                          pages: seq<Payload>, merged: Payload, page: int, count: nat, streak: nat,
                          done: Option<Stop>)
  {
    && Collected(shape, f, [first] + pages, merged) && PaginationOf(first).Some?
    && TurnedUntil(server, f, first, start, pages, page, count, streak, |Lists([first] + pages, f)|, done)
  }

  /** One turn of the loop: reads the next page into the merge. */
  method TakeTurn(server: int -> Reply, firstData: Payload, merged: Payload, page: int, pageCount: nat,
                  emptyStreak: nat, ghost shape: string -> Kind, ghost f: string, ghost start: int,
                  ghost pages: seq<Payload>)
    returns (r: Payload, count: nat, streak: nat, stop: Option<Stop>, ghost read: seq<Payload>)
    requires Turning(server, shape, f, firstData, start, pages, merged, page, pageCount, emptyStreak, None)
    requires TrustedPages(shape, f, server)
    requires pageCount < MAX_PAGES && !Enough(TotalOf(firstData), |Lists([firstData] + pages, f)|)
    requires IncrementInt(page).Some? && !server(page + 1).Failure?
    ensures Turning(server, shape, f, firstData, start, read, r, page + 1, count, streak, stop)
    ensures pageCount <= count && (stop.None? ==> count == pageCount + 1)
  {
    hide WellShaped, MergeAll, ListOf, Turn, IsEmptyPage, Collected, Lists, HasMore, TotalOf, RunTurns, Enough,
      IncrementInt, TurnedUntil;
    r, count, streak, stop, read := merged, pageCount, emptyStreak, None, pages;
    ghost var length := |Lists([firstData] + pages, f)|;
    StopTurning(server, f, firstData, start, pages, page, pageCount, emptyStreak, length);
    if server(page + 1).NotObject? { return r, count, streak, Some(NotAnObject), read; }
    var p := server(page + 1).payload;
    NextTurn(server, f, firstData, start, pages, page, pageCount, emptyStreak, length);
    ListsOne(firstData, pages, p, f);
    assert [firstData] + (pages + [p]) == [firstData] + pages + [p];
    read := pages + [p];
    var empty;
    r, empty := AppendPage(merged, p, shape, f, [firstData] + pages);
    count := count + 1;
    streak := if empty then streak + 1 else 0;
    stop := if !HasMore(p) then Some(Exhausted) else if streak >= MAX_EMPTY_STREAK then Some(EmptyPages) else None;
  }

  /** `paginateByPageNum`. */
  method PaginateByPageNum(server: int -> Reply, firstData: Payload, declared: bool, pageNum: Option<Value>,
                           ghost shape: string -> Kind, ghost f: string) returns (r: Result)
    requires TrustedPages(shape, f, server) && WellShaped(shape, f, firstData)
    ensures r == NumberRun(server, f, firstData, declared, pageNum)
  {
    hide WellShaped, MergeAll, ListOf, Turn, IsEmptyPage, Lists, TotalOf, RunTurns, Enough, IncrementInt, TurnedUntil,
      StartPage, Collected, Flatten;
    if !HasMore(firstData) || !declared { return Untouched; }
    hide HasMore;
    var startPage := StartPage(pageNum);
    if startPage.None? { return InvalidPage; }
    ghost var start := startPage.value;
    var merged, currentPage, pageCount, emptyStreak, total := firstData, startPage.value, 1, 0, TotalOf(firstData);
    var stop: Option<Stop> := None;
    ghost var pages: seq<Payload> := [];
    StartTurning(server, f, firstData, start);
    StartCollecting(shape, f, firstData);
    ListsOne(firstData, [], firstData, f);
    assert [firstData] + pages == [firstData];
    while stop.None?
      invariant Turning(server, shape, f, firstData, start, pages, merged, currentPage, pageCount, emptyStreak, stop)
      invariant 1 <= pageCount <= MAX_PAGES
      decreases MAX_PAGES - pageCount, stop.None?
    {
      MergedLength(shape, f, firstData, pages, merged);
      StopTurning(server, f, firstData, start, pages, currentPage, pageCount, emptyStreak,
                  |Lists([firstData] + pages, f)|);
      if pageCount >= MAX_PAGES {
        stop := Some(PageCap);
        break;
      }
      var length := ListLength(merged, shape, f);
      if Enough(total, length) {
        stop := Some(TotalReached);
        break;
      }
      var nextPage := IncrementInt(currentPage);
      if nextPage.None? { return InvalidPage; }
      if server(currentPage + 1).Failure? { return CallFailed; }
      merged, pageCount, emptyStreak, stop, pages :=
        TakeTurn(server, firstData, merged, currentPage, pageCount, emptyStreak, shape, f, start, pages);
      currentPage := currentPage + 1;
      CountBound(server, shape, f, firstData, start, pages, merged, currentPage, pageCount, emptyStreak, stop);
    }
    MergedLength(shape, f, firstData, pages, merged);
    var itemCount := FlattenedLength(merged, shape, f);
    NumberRunIs(server, shape, f, firstData, declared, pageNum, pages, merged, currentPage, pageCount, emptyStreak,
                stop.value);
    var truncated := stop == Some(PageCap);
    r := Merged(Flatten(merged), Meta(pageCount, itemCount, truncated, "",
                                      if truncated then IncrementInt(currentPage) else None, stop == Some(EmptyPages)));
  }

  lemma CountBound(server: int -> Reply, shape: string -> Kind, f: string, first: Payload, start: int,
                   pages: seq<Payload>, merged: Payload, page: int, count: nat, streak: nat, done: Option<Stop>)
    requires Turning(server, shape, f, first, start, pages, merged, page, count, streak, done)
    ensures 1 <= count <= MAX_PAGES
  {
    hide Collected, RunTurns, Turn;
  }

  method FlattenedLength(merged: Payload, ghost shape: string -> Kind, ghost f: string) returns (n: nat)
    requires WellShaped(shape, f, merged) && PaginationOf(merged).Some?
    ensures n == |ListOf(Flatten(merged), f)|
  {
    FlattenKeepsList(shape, f, merged);
    hide Flatten, WellShaped;
    n := GetListLength(Flatten(merged));
  }

  lemma NumberRunIs(server: int -> Reply, shape: string -> Kind, f: string, first: Payload, declared: bool,
                    pageNum: Option<Value>, pages: seq<Payload>, merged: Payload, page: int, count: nat, streak: nat,
                    stop: Stop)
    requires HasMore(first) && declared && StartPage(pageNum).Some?
    requires Turning(server, shape, f, first, StartPage(pageNum).value, pages, merged, page, count, streak, Some(stop))
    ensures var flat := Flatten(merged);
            NumberRun(server, f, first, declared, pageNum) ==
            Merged(flat, Meta(count, |ListOf(flat, f)|, stop.PageCap?, "",
                              if stop.PageCap? then IncrementInt(page) else None, stop.EmptyPages?))
  {
    hide HasMore, StartPage, Flatten, MergeAll, RunTurns, Lists, ListOf, IncrementInt, WellShaped;
  }

  // ---------------------------------------------------------------- its meaning

  /** The `k` pages after `start`, all of them there. */
  ghost predicate Consecutive(server: int -> Reply, start: int, pages: seq<Payload>) {
    forall i :: 0 <= i < |pages| ==> server(start + 1 + i) == Page(pages[i])
  }

  /** The first `i` pages leave the loop wanting another one: the total is not reached, if
      there is one, and the last page says that more follow. */
  ghost predicate WantsMore(f: string, total: int, length: nat, pages: seq<Payload>, i: nat)
    requires i <= |pages|
  {
    && (total <= 0 || length + |Lists(pages[..i], f)| < total)
    && (i > 0 ==> Says(pages[i - 1], "has_more", Flag(true)))
  }

  /** The page's pagination object has the field with that value. */
  predicate Says(p: Payload, name: string, value: Value) {
    name in FieldsAt(p, "pagination") && FieldsAt(p, "pagination")[name] == value
  }

  lemma AnotherPage(total: int, length: nat, p: Payload)
    ensures Enough(total, length) <==> !(total <= 0 || length < total)
    ensures HasMore(p) <==> Says(p, "has_more", Flag(true))
  {}

  /** `raw` is an integer of the local range, namely `n`. */
  predicate Integer(raw: Value, n: int) { raw == Whole(n) && MIN_INT64 <= n <= MAX_INT64 }

  /** A run starts at the caller's page number, at page 1 without one, and fails for one that
      is no positive integer; it is idle unless the first page announces more. */
  lemma StartsAt(server: int -> Reply, f: string, first: Payload, declared: bool, pageNum: Option<Value>)
    ensures !Says(first, "has_more", Flag(true)) || !declared ==>
              NumberRun(server, f, first, declared, pageNum) == Untouched
    ensures NumberRun(server, f, first, declared, None) == NumberRun(server, f, first, declared, Some(Whole(1)))
    ensures Says(first, "has_more", Flag(true)) && declared && pageNum.Some? &&
            !(exists n :: n >= 1 && Integer(pageNum.value, n)) ==>
              NumberRun(server, f, first, declared, pageNum) == InvalidPage
    ensures forall n :: n >= 1 && pageNum.Some? && Integer(pageNum.value, n) ==> StartPage(pageNum) == Some(n)
  {
    hide RunTurns;
    AnotherPage(0, 0, first);
    if pageNum.Some? && StartPage(pageNum).Some? { assert Integer(pageNum.value, StartPage(pageNum).value); }
  }

  /** The total a run heeds: the one in the pagination object unless it is 0 or no integer,
      then the one at top level, else none. */
  lemma TotalHeeded(first: Payload, inner: int, outer: int)
    ensures inner != 0 && MIN_INT64 <= inner <= MAX_INT64 && Says(first, "total", Whole(inner)) ==>
              TotalOf(first) == inner
    ensures (forall n :: Says(first, "total", Whole(n)) ==> n == 0 || !(MIN_INT64 <= n <= MAX_INT64)) ==>
              && ("total" in first && Integer(first["total"], outer) ==> TotalOf(first) == outer)
              && ("total" !in first || (forall n :: !Integer(first["total"], n)) ==> TotalOf(first) == 0)
  {
    var pg := FieldsAt(first, "pagination");
    if "total" in pg && pg["total"].Whole? { assert Says(first, "total", Whole(pg["total"].number)); }
    if "total" in first && first["total"].Whole? && IsInt64(first["total"].number) {
      assert Integer(first["total"], first["total"].number);
    }
  }

  predicate Promises(chain: seq<Payload>) { chain == [] || HasMore(chain[|chain| - 1]) }

  /** Up to `n` pages numbered on from `page`, each promised by the one before and none past
      the total, `length` items coming before them. */
  function Promised(server: int -> Reply, f: string, total: int, page: int, length: nat, n: nat)
    : (pages: seq<Payload>)
    ensures |pages| <= n
    decreases n
  {
    if n == 0 || Enough(total, length) || IncrementInt(page).None? || !server(page + 1).Page? then []
    else
      var p := server(page + 1).payload;
      [p] + if HasMore(p) then Promised(server, f, total, page + 1, length + |ListOf(p, f)|, n - 1) else []
  }

  lemma {:induction false} PromisedWell(server: int -> Reply, f: string, total: int, page: int, length: nat, n: nat)
    ensures var pages := Promised(server, f, total, page, length, n);
            && Consecutive(server, page, pages)
            && forall i :: 0 <= i < |pages| ==> WantsMore(f, total, length, pages, i)
    decreases n
  {
    hide Enough, HasMore, ListOf, Lists, IncrementInt;
    var pages := Promised(server, f, total, page, length, n);
    if pages != [] {
      var p, rest := pages[0], pages[1..];
      if HasMore(p) { PromisedWell(server, f, total, page + 1, length + |ListOf(p, f)|, n - 1); }
      forall i | 0 <= i < |pages| ensures server(page + 1 + i) == Page(pages[i]) {
        if i > 0 { assert server(page + 1 + 1 + (i - 1)) == Page(rest[i - 1]); }
      }
      forall i | 0 <= i < |pages| ensures WantsMore(f, total, length, pages, i) {
        AnotherPage(total, length, p);
        if i == 0 {
          assert pages[..0] == [];
          NoLists(f);
        } else {
          assert pages[..i] == [p] + rest[..i - 1];
          ListsFront(p, rest[..i - 1], f);
          assert WantsMore(f, total, length + |ListOf(p, f)|, rest, i - 1);
        }
      }
    }
  }

  lemma NoLists(f: string)
    ensures Lists([], f) == []
  {}

  lemma {:induction false} ListsFront(p: Payload, rest: seq<Payload>, f: string)
    ensures Lists([p] + rest, f) == ListOf(p, f) + Lists(rest, f)
  {
    hide ListOf;
    var all := [p] + rest;
    if rest == [] {
      assert all[..0] == [];
    } else {
      var n := |rest| - 1;
      assert all[..n + 1] == [p] + rest[..n];
      ListsFront(p, rest[..n], f);
    }
  }

  /** The pages that promise another one. */
  function Open(chain: seq<Payload>): seq<Payload> {
    if Promises(chain) then chain else chain[..|chain| - 1]
  }

  datatype Ending = Stopped(stop: Stop) | Failing | Overrun

  /** How the loop must end, in terms of the promised pages alone, at most `room` pages being
      still allowed. */
  ghost function EndOfTurns(server: int -> Reply, f: string, total: int, page: int, room: int, streak: nat,
                            length: nat, chain: seq<Payload>): Ending
  {
    var next := page + |chain|;
    if !CalmFrom(Open(chain), f, streak) then Stopped(EmptyPages)
    else if !Promises(chain) then Stopped(Exhausted)
    else if |chain| >= room then Stopped(PageCap)
    else if Enough(total, length + |Lists(chain, f)|) then Stopped(TotalReached)
    else if IncrementInt(next).None? then Overrun
    else if server(next + 1).NotObject? then Stopped(NotAnObject)
    else Failing
  }

  ghost predicate TurnExplained(server: int -> Reply, f: string, total: int, page: int, count: nat, streak: nat,
                                length: nat, w: Turns, chain: seq<Payload>)
    requires 1 <= count <= MAX_PAGES
  {
    match EndOfTurns(server, f, total, page, MAX_PAGES - count, streak, length, chain)
    case Failing => w.CallBroken?
    case Overrun => w.OutOfRange?
    case Stopped(stop) =>
      && w.Turns? && w.stop == stop && w.pages <= chain && (stop.EmptyPages? || w.pages == chain)
      && w.count == count + |w.pages|
      && w.page == page + |w.pages| + (if stop.NotAnObject? then 1 else 0)
  }

  lemma {:induction false} TurnEnds(server: int -> Reply, f: string, total: int, page: int, count: nat, streak: nat,
                                    length: nat)
    requires 1 <= count <= MAX_PAGES && streak < MAX_EMPTY_STREAK
    ensures TurnExplained(server, f, total, page, count, streak, length,
                          Turn(server, f, total, page, count, streak, length),
                          Promised(server, f, total, page, length, MAX_PAGES - count))
    decreases MAX_PAGES - count
  {
    hide Enough, HasMore, ListOf, Lists, CalmFrom, IsEmptyPage, IncrementInt, TurnExplained;
    if count < MAX_PAGES && !Enough(total, length) && IncrementInt(page).Some? && server(page + 1).Page? {
      var p := server(page + 1).payload;
      var s := if IsEmptyPage(p, f) then streak + 1 else 0;
      if HasMore(p) {
        var next := Promised(server, f, total, page + 1, length + |ListOf(p, f)|, MAX_PAGES - count - 1);
        if s < MAX_EMPTY_STREAK {
          TurnEnds(server, f, total, page + 1, count + 1, s, length + |ListOf(p, f)|);
          TurnStep(server, f, total, page, count, streak, length, p,
                   Turn(server, f, total, page + 1, count + 1, s, length + |ListOf(p, f)|), next);
        } else {
          TurnStuck(server, f, total, page, count, streak, length, p, next);
        }
      } else {
        assert [p] + [] == [p];
        TurnLast(server, f, total, page, count, streak, length, p);
      }
    } else {
      TurnNone(server, f, total, page, count, streak, length);
    }
  }

  lemma TurnStep(server: int -> Reply, f: string, total: int, page: int, count: nat, streak: nat, length: nat,
                 p: Payload, w: Turns, next: seq<Payload>)
    requires 1 <= count < MAX_PAGES && streak < MAX_EMPTY_STREAK && HasMore(p)
    requires var s := if IsEmptyPage(p, f) then streak + 1 else 0;
             s < MAX_EMPTY_STREAK &&
             TurnExplained(server, f, total, page + 1, count + 1, s, length + |ListOf(p, f)|, w, next)
    ensures TurnExplained(server, f, total, page, count, streak, length, Before(p, w), [p] + next)
  {
    hide Enough, HasMore, ListOf, Lists, CalmFrom, IsEmptyPage, IncrementInt;
    OpenStep(p, next);
    CalmStep(p, Open(next), f, streak);
    ListsFront(p, next, f);
  }

  lemma OpenStep(p: Payload, next: seq<Payload>)
    requires HasMore(p)
    ensures Promises([p] + next) == Promises(next) && Open([p] + next) == [p] + Open(next)
  {
    hide HasMore;
  }

  lemma TurnStuck(server: int -> Reply, f: string, total: int, page: int, count: nat, streak: nat, length: nat,
                  p: Payload, next: seq<Payload>)
    requires 1 <= count < MAX_PAGES && streak < MAX_EMPTY_STREAK && HasMore(p)
    requires IsEmptyPage(p, f) && streak + 1 >= MAX_EMPTY_STREAK
    ensures TurnExplained(server, f, total, page, count, streak, length,
                          Turns([p], count + 1, EmptyPages, page + 1), [p] + next)
  {
    hide HasMore, CalmFrom, IsEmptyPage;
    OpenStep(p, next);
    CalmStep(p, Open(next), f, streak);
  }

  lemma TurnLast(server: int -> Reply, f: string, total: int, page: int, count: nat, streak: nat, length: nat,
                 p: Payload)
    requires 1 <= count < MAX_PAGES && !HasMore(p)
    ensures TurnExplained(server, f, total, page, count, streak, length,
                          Turns([p], count + 1, Exhausted, page + 1), [p])
  {
    hide HasMore, IsEmptyPage;
    CalmEmpty(f, streak);
    assert Open([p]) == [];
  }

  lemma TurnNone(server: int -> Reply, f: string, total: int, page: int, count: nat, streak: nat, length: nat)
    requires 1 <= count <= MAX_PAGES
    requires count == MAX_PAGES || Enough(total, length) || IncrementInt(page).None? || !server(page + 1).Page?
    ensures TurnExplained(server, f, total, page, count, streak, length,
                          Turn(server, f, total, page, count, streak, length), [])
  {
    hide Enough, HasMore, IsEmptyPage;
    CalmEmpty(f, streak);
    NoLists(f);
  }

  /** The pages the first one promises, at most 199. */
  function PromisedBy(server: int -> Reply, f: string, first: Payload, start: int): seq<Payload> {
    Promised(server, f, TotalOf(first), start, |ListOf(first, f)|, MAX_PAGES - 1)
  }

  /** A run merges the pages after the first one, in order and without a gap, at most 199;
      no page is fetched once the total is reached or no more is promised, and all promised
      ones are unless it stopped early. */
  lemma NumberRunIsConsecutive(server: int -> Reply, shape: string -> Kind, f: string, first: Payload, declared: bool,
                               pageNum: Option<Value>) returns (pages: seq<Payload>)
    requires TrustedPages(shape, f, server) && WellShaped(shape, f, first)
    requires NumberRun(server, f, first, declared, pageNum).Merged?
    ensures |pages| <= 199 && Consecutive(server, StartPage(pageNum).value, pages)
    ensures forall i :: 0 <= i < |pages| ==> WantsMore(f, TotalOf(first), |ListOf(first, f)|, pages, i)
    ensures var r := NumberRun(server, f, first, declared, pageNum);
            && r.payload == Flatten(MergeAll([first] + pages))
            && ListOf(r.payload, f) == Lists([first] + pages, f)
            && r.meta.pagesMerged == 1 + |pages| && r.meta.totalItems == |Lists([first] + pages, f)|
            && (r.meta.stoppedEarly || pages == PromisedBy(server, f, first, StartPage(pageNum).value))
    ensures var meta, start := NumberRun(server, f, first, declared, pageNum).meta, StartPage(pageNum).value;
            meta.truncated ==>
              && |pages| == 199 && Says(pages[198], "has_more", Flag(true)) && Calm(pages, f)
              && meta.nextPage == IncrementInt(start + |pages|)
  {
    hide HasMore, MergeAll, Turn, WellShaped, ListOf, Flatten, TotalOf, Lists, IncrementInt, StartPage, CalmFrom,
      Enough, Promised;
    var start := StartPage(pageNum).value;
    var w := RunTurns(server, f, first, start);
    TurnEnds(server, f, TotalOf(first), start, 1, 0, |ListOf(first, f)|);
    PromisedWell(server, f, TotalOf(first), start, |ListOf(first, f)|, MAX_PAGES - 1);
    pages := w.pages;
    PrefixWell(server, f, TotalOf(first), start, |ListOf(first, f)|, pages, PromisedBy(server, f, first, start));
    if |pages| == 199 { AnotherPage(0, 0, pages[198]); }
    PagesCollect(server, shape, f, first, start, pages);
    FlattenKeepsList(shape, f, MergeAll([first] + pages));
  }

  /** What becomes of the pagination object and the total: the object goes, and the total is
      that of the last page that has one at top level; without one, the positive one the last
      pagination object with a total gives, if it is whole. */
  lemma TotalOfRun(server: int -> Reply, shape: string -> Kind, f: string, first: Payload, start: int,
                   pages: seq<Payload>, i: nat)
    requires TrustedPages(shape, f, server) && WellShaped(shape, f, first) && Consecutive(server, start, pages)
    requires Says(first, "has_more", Flag(true)) && shape("total") == OtherKind
    ensures var all := [first] + pages;
            var flat := Flatten(MergeAll(all));
            && "pagination" !in flat
            && (i < |all| && "total" in all[i] && (forall j :: i < j < |all| ==> "total" !in all[j]) ==>
                  "total" in flat && flat["total"] == all[i]["total"])
            && ((forall j :: 0 <= j < |all| ==> "total" !in all[j]) ==>
                  && ("total" in flat ==> exists j: nat :: LastNested(all, "pagination", "total", j))
                  && (LastNested(all, "pagination", "total", i) ==>
                        var given := FieldsAt(all[i], "pagination")["total"];
                        && ("total" in flat <==> given.Whole? && given.number > 0)
                        && ("total" in flat ==> flat["total"] == given)))
  {
    hide MergeAll, WellShaped, ListOf, Lists, Consecutive, LastNested;
    var all := [first] + pages;
    AnotherPage(0, 0, first);
    PagesCollect(server, shape, f, first, start, pages);
    PagesFit(server, shape, f, first, start, pages);
    assert KindOf(first["pagination"]) == ObjectKind && all[0] == first;
    FieldsOfMerge(all, "total");
    LastNestedWins(shape, all, "pagination", "total");
    if i < |all| && "total" in all[i] && forall j :: i < j < |all| ==> "total" !in all[j] {
      LastPageWins(all, "total", i);
    }
  }

  lemma PagesFit(server: int -> Reply, shape: string -> Kind, f: string, first: Payload, start: int,
                 pages: seq<Payload>)
    requires TrustedPages(shape, f, server) && WellShaped(shape, f, first) && Consecutive(server, start, pages)
    ensures AllFit(shape, [first] + pages)
  {
    hide Fits;
    var all := [first] + pages;
    forall i | 0 <= i < |all| ensures Fits(shape, all[i]) {
      if i > 0 { assert server(start + 1 + (i - 1)) == Page(pages[i - 1]); }
    }
  }

  lemma PrefixWell(server: int -> Reply, f: string, total: int, page: int, length: nat, pages: seq<Payload>,
                   chain: seq<Payload>)
    requires pages <= chain && Consecutive(server, page, chain)
    requires forall i :: 0 <= i < |chain| ==> WantsMore(f, total, length, chain, i)
    ensures Consecutive(server, page, pages)
    ensures forall i :: 0 <= i < |pages| ==> WantsMore(f, total, length, pages, i)
  {
    hide Enough, HasMore, Lists;
    forall i | 0 <= i < |pages| ensures WantsMore(f, total, length, pages, i) {
      assert pages[..i] == chain[..i];
      assert WantsMore(f, total, length, chain, i);
    }
  }

  lemma PagesCollect(server: int -> Reply, shape: string -> Kind, f: string, first: Payload, start: int,
                     pages: seq<Payload>)
    requires TrustedPages(shape, f, server) && WellShaped(shape, f, first) && Consecutive(server, start, pages)
    requires HasMore(first)
    ensures var m := MergeAll([first] + pages);
            WellShaped(shape, f, m) && ListOf(m, f) == Lists([first] + pages, f) && PaginationOf(m).Some?
  {
    hide WellShaped, MergeAll, ListOf, Lists;
    var all := [first] + pages;
    forall i | 0 <= i < |all| ensures WellShaped(shape, f, all[i]) {
      if i > 0 { assert server(start + 1 + (i - 1)) == Page(pages[i - 1]); }
    }
    MergedLength(shape, f, first, pages, MergeAll(all));
    MergedLists(shape, f, all, MergeAll(all));
  }

  /** Truncation is reported exactly when 199 promised pages came, no three in a row were
      empty, and the last one promises another; the early stop exactly when three in a row
      were empty. A next page is reported only after truncation. */
  lemma NumberTruncatedIff(server: int -> Reply, f: string, first: Payload, pageNum: Option<Value>)
    requires HasMore(first) && StartPage(pageNum).Some?
    ensures var r, chain := NumberRun(server, f, first, true, pageNum),
                            PromisedBy(server, f, first, StartPage(pageNum).value);
            && (r.Merged? && r.meta.truncated <==> |chain| == 199 && Calm(chain, f) && HasMore(chain[198]))
            && (r.Merged? && r.meta.stoppedEarly <==> !Calm(Open(chain), f))
            && (r.Merged? ==> r.meta.nextToken == "" && (!r.meta.truncated ==> r.meta.nextPage == None))
  {
    hide HasMore, CalmFrom, Turn, TotalOf, IncrementInt, StartPage, Enough, Promised, Lists, ListOf, Flatten, MergeAll;
    TurnEnds(server, f, TotalOf(first), StartPage(pageNum).value, 1, 0, |ListOf(first, f)|);
  }

  /** A run that reports nothing ended because no more was promised, because the total was
      reached, or because the next page was no object. */
  lemma SilentEndIff(server: int -> Reply, f: string, first: Payload, pageNum: Option<Value>)
    requires HasMore(first) && StartPage(pageNum).Some?
    ensures var r, start := NumberRun(server, f, first, true, pageNum), StartPage(pageNum).value;
            var chain := PromisedBy(server, f, first, start);
            var wanting := Promises(chain) && !Enough(TotalOf(first), |ListOf(first, f)| + |Lists(chain, f)|);
            var next := IncrementInt(start + |chain|);
            && (r.Merged? && !r.meta.truncated && !r.meta.stoppedEarly <==>
                && Calm(Open(chain), f)
                && if wanting then |chain| < MAX_PAGES - 1 && next.Some? && server(next.value).NotObject?
                   else !Promises(chain) || |chain| < MAX_PAGES - 1)
            && (r.InvalidPage? <==> |chain| < MAX_PAGES - 1 && Calm(chain, f) && wanting && next.None?)
  {
    hide HasMore, CalmFrom, Turn, TotalOf, StartPage, Enough, Promised, Lists, ListOf, Flatten, MergeAll;
    TurnEnds(server, f, TotalOf(first), StartPage(pageNum).value, 1, 0, |ListOf(first, f)|);
  }

  /** After a truncated run the reported page is the first one it did not read. */
  lemma NextPageIsUnread(server: int -> Reply, shape: string -> Kind, f: string, first: Payload, declared: bool,
                         pageNum: Option<Value>)
    requires TrustedPages(shape, f, server) && WellShaped(shape, f, first)
    requires NumberRun(server, f, first, declared, pageNum).Merged?
    requires NumberRun(server, f, first, declared, pageNum).meta.truncated
    ensures var start, meta := StartPage(pageNum).value, NumberRun(server, f, first, declared, pageNum).meta;
            && meta.pagesMerged == MAX_PAGES
            && (meta.nextPage == None <==> start + MAX_PAGES - 1 == MAX_INT64)
            && (meta.nextPage.Some? ==> meta.nextPage.value == start + meta.pagesMerged)
  {
    hide NumberRun, Consecutive, WantsMore, Lists, ListOf, MergeAll, Flatten, HasMore;
    var pages := NumberRunIsConsecutive(server, shape, f, first, declared, pageNum);
  }

  // ------------------------------------------------------------ resuming a run

  /** What the user gets by running from page number `page`, whose payload is `first`, and
      again from the reported number while there is one, the outputs merged. */
  function ResumedByNumber(server: int -> Reply, f: string, first: Payload, page: int, rounds: nat): Payload
    requires rounds > 0
    decreases rounds
  {
    match NumberRun(server, f, first, true, Some(Whole(page)))
    case Untouched => first
    case Merged(payload, meta) =>
      if meta.truncated && rounds > 1 && meta.nextPage.Some? && server(meta.nextPage.value).Page? then
        Merge(payload, ResumedByNumber(server, f, server(meta.nextPage.value).payload, meta.nextPage.value, rounds - 1))
      else payload
    case _ => map[]
  }

  /** The total that page `m` promises is reached with page `i`. */
  ghost predicate TotalMet(f: string, all: seq<Payload>, m: nat, i: nat)
    requires m <= i < |all|
  {
    Enough(TotalOf(all[m]), |Lists(all[m..i + 1], f)|)
  }

  /** No total promised by a page is reached before the last page. */
  ghost predicate TotalsHold(f: string, all: seq<Payload>) {
    forall m, i :: 0 <= m <= i < |all| - 1 ==> !TotalMet(f, all, m, i)
  }

  /** The pages from number `start` to the last: exactly the last promises no other, and
      between the first and the last no three in a row are empty. */
  ghost predicate Book(server: int -> Reply, f: string, start: int, all: seq<Payload>) {
    && all != [] && 1 <= start && start + |all| - 1 <= MAX_INT64
    && Consecutive(server, start, all[1..])
    && (forall i :: 0 <= i < |all| ==> (HasMore(all[i]) <==> i < |all| - 1))
    && (|all| > 1 ==> Calm(all[1..|all| - 1], f))
    && TotalsHold(f, all)
  }

  lemma BookStep(server: int -> Reply, f: string, start: int, all: seq<Payload>, k: nat)
    requires Book(server, f, start, all) && k < |all| - 1
    ensures !Enough(TotalOf(all[0]), |Lists(all[..k + 1], f)|) && IncrementInt(start + k).Some?
    ensures server(start + k + 1) == Page(all[k + 1]) && (HasMore(all[k + 1]) <==> k + 1 < |all| - 1)
    ensures |Lists(all[..k + 2], f)| == |Lists(all[..k + 1], f)| + |ListOf(all[k + 1], f)|
  {
    hide HasMore, TotalOf, Lists, ListOf, Calm, Enough;
    assert all[0..k + 1] == all[..k + 1] && !TotalMet(f, all, 0, k);
    assert server(start + 1 + k) == Page(all[1..][k]);
    ListsBack(all[..k + 1], all[k + 1], f);
    assert all[..k + 2] == all[..k + 1] + [all[k + 1]];
  }

  lemma PromisedStep(server: int -> Reply, f: string, total: int, page: int, length: nat, n: nat)
    requires n > 0 && !Enough(total, length) && IncrementInt(page).Some? && server(page + 1).Page?
    ensures var p := server(page + 1).payload;
            Promised(server, f, total, page, length, n) ==
            [p] + if HasMore(p) then Promised(server, f, total, page + 1, length + |ListOf(p, f)|, n - 1) else []
  {
    hide Enough, HasMore, ListOf, IncrementInt;
  }

  lemma {:induction false} BookPromised(server: int -> Reply, f: string, start: int, all: seq<Payload>, k: nat, n: nat,
                                        end: nat)
    requires Book(server, f, start, all) && k < |all| - 1
    requires k < end <= |all| && (end == k + 1 + n || (end == |all| && end < k + 1 + n))
    ensures Promised(server, f, TotalOf(all[0]), start + k, |Lists(all[..k + 1], f)|, n) == all[k + 1..end]
    decreases n
  {
    hide HasMore, TotalOf, Lists, ListOf, Book, Enough, IncrementInt, Promised;
    if n > 0 {
      BookStep(server, f, start, all, k);
      PromisedStep(server, f, TotalOf(all[0]), start + k, |Lists(all[..k + 1], f)|, n);
      SliceFront(all, k + 1, end);
      if k + 1 < |all| - 1 { BookPromised(server, f, start, all, k + 1, n - 1, end); }
    }
  }

  lemma SliceFront<T>(s: seq<T>, i: nat, j: nat)
    requires i < j <= |s|
    ensures s[i..j] == [s[i]] + s[i + 1..j]
  {}

  lemma ListsBack(pages: seq<Payload>, p: Payload, f: string)
    ensures Lists(pages + [p], f) == Lists(pages, f) + ListOf(p, f)
  {
    assert (pages + [p])[..|pages|] == pages;
  }

  /** A book of at most 200 pages is read by one run. */
  lemma ShortBook(server: int -> Reply, f: string, start: int, all: seq<Payload>)
    requires Book(server, f, start, all) && 1 < |all| <= MAX_PAGES
    ensures var r := NumberRun(server, f, all[0], true, Some(Whole(start)));
            r.Merged? && !r.meta.truncated && r.payload == Flatten(MergeAll(all))
  {
    hide HasMore, TotalOf, Lists, ListOf, CalmFrom, Enough, Turn, MergeAll, Flatten, Promised, TotalsHold;
    BookChain(server, f, start, all);
    TurnEnds(server, f, TotalOf(all[0]), start, 1, 0, |ListOf(all[0], f)|);
    assert [all[0]] + all[1..] == all;
    assert all[1..|all|] == all[1..] && all[1..][|all| - 2] == all[|all| - 1];
    assert Open(all[1..]) == all[1..|all| - 1];
  }

  lemma BookChain(server: int -> Reply, f: string, start: int, all: seq<Payload>)
    requires Book(server, f, start, all) && 1 < |all|
    ensures PromisedBy(server, f, all[0], start) == all[1..if |all| < MAX_PAGES then |all| else MAX_PAGES]
  {
    hide HasMore, TotalOf, ListOf, Calm, Enough, Promised, TotalsHold;
    BookPromised(server, f, start, all, 0, MAX_PAGES - 1, if |all| < MAX_PAGES then |all| else MAX_PAGES);
    assert all[..1] == [] + [all[0]];
    ListsBack([], all[0], f);
  }

  /** One run reads 200 pages of a longer book, and the next one starts at the 201st. */
  lemma LongBook(server: int -> Reply, f: string, start: int, all: seq<Payload>)
    requires Book(server, f, start, all) && MAX_PAGES < |all|
    ensures var r := NumberRun(server, f, all[0], true, Some(Whole(start)));
            && r.Merged? && r.meta.truncated && r.payload == Flatten(MergeAll(all[..MAX_PAGES]))
            && r.meta.nextPage == Some(start + MAX_PAGES) && server(start + MAX_PAGES) == Page(all[MAX_PAGES])
  {
    hide HasMore, TotalOf, Lists, ListOf, CalmFrom, Enough, Turn, MergeAll, Flatten, Promised, TotalsHold;
    BookChain(server, f, start, all);
    TurnEnds(server, f, TotalOf(all[0]), start, 1, 0, |ListOf(all[0], f)|);
    var inner := all[1..|all| - 1];
    CalmSplit(inner, f, MAX_PAGES - 1);
    assert inner[..MAX_PAGES - 1] == all[1..MAX_PAGES];
    assert [all[0]] + all[1..MAX_PAGES] == all[..MAX_PAGES];
    assert all[1..][MAX_PAGES - 1] == all[MAX_PAGES];
  }

  lemma BookTail(server: int -> Reply, f: string, start: int, all: seq<Payload>)
    requires Book(server, f, start, all) && MAX_PAGES < |all|
    ensures Book(server, f, start + MAX_PAGES, all[MAX_PAGES..])
  {
    hide HasMore, TotalOf, Lists, ListOf, CalmFrom, Enough;
    var tail := all[MAX_PAGES..];
    forall i | 0 <= i < |tail| - 1 ensures server(start + MAX_PAGES + 1 + i) == Page(tail[1..][i]) {
      assert server(start + 1 + (MAX_PAGES + i)) == Page(all[1..][MAX_PAGES + i]);
    }
    if |tail| > 1 {
      CalmSplit(all[1..|all| - 1], f, MAX_PAGES);
      InnerOfTail(all, MAX_PAGES);
    }
    forall m, i | 0 <= m <= i < |tail| - 1 ensures !TotalMet(f, tail, m, i) {
      assert !TotalMet(f, all, MAX_PAGES + m, MAX_PAGES + i);
      assert tail[m..i + 1] == all[MAX_PAGES + m..MAX_PAGES + i + 1];
    }
  }

  lemma InnerOfTail<T>(s: seq<T>, k: nat)
    requires k + 1 < |s|
    ensures s[1..|s| - 1][k..] == s[k..][1..|s[k..]| - 1]
  {}

  const REWRITTEN: set<string> := {"total", "pagination"}

  lemma FlattenElsewhere(m: Payload)
    ensures Flatten(m) - REWRITTEN == m - REWRITTEN
  {}

  lemma MergeWithoutAll(a: Payload, b: Payload, keys: set<string>)
    ensures Merge(a, b) - keys == Merge(a - keys, b - keys)
  {}

  /** Runs resumed from the reported number add up to the whole book in every field but the
      two that each run rewrites, the total and the pagination object. */
  lemma {:induction false} ResumedIsBook(server: int -> Reply, shape: string -> Kind, f: string, start: int,
                                         all: seq<Payload>, rounds: nat)
    requires forall i :: 0 <= i < |all| ==> WellShaped(shape, f, all[i])
    requires Book(server, f, start, all) && |all| <= MAX_PAGES * rounds
    ensures ResumedByNumber(server, f, all[0], start, rounds) - REWRITTEN == MergeAll(all) - REWRITTEN
    decreases rounds
  {
    hide WellShaped, Merge, Flatten, Consecutive, HasMore, TotalsHold, Calm, NumberRun, MergeAll;
    if |all| == 1 {
      OnePage(server, f, start, all);
    } else if |all| <= MAX_PAGES {
      ShortBook(server, f, start, all);
      FlattenElsewhere(MergeAll(all));
    } else {
      var rest := all[MAX_PAGES..];
      LongBook(server, f, start, all);
      BookTail(server, f, start, all);
      ResumedIsBook(server, shape, f, start + MAX_PAGES, rest, rounds - 1);
      BlocksElsewhere(shape, f, all, ResumedByNumber(server, f, rest[0], start + MAX_PAGES, rounds - 1));
    }
  }

  lemma BlocksElsewhere(shape: string -> Kind, f: string, all: seq<Payload>, y: Payload)
    requires |all| > MAX_PAGES && forall i :: 0 <= i < |all| ==> WellShaped(shape, f, all[i])
    requires y - REWRITTEN == MergeAll(all[MAX_PAGES..]) - REWRITTEN
    ensures Merge(Flatten(MergeAll(all[..MAX_PAGES])), y) - REWRITTEN == MergeAll(all) - REWRITTEN
  {
    hide Merge, MergeAll, AllFit, Flatten, WellShaped;
    var a, b := all[..MAX_PAGES], all[MAX_PAGES..];
    PartsFit(shape, f, all, a, b);
    assert a + b == all;
    MergeAllConcat(shape, a, b);
    FlattenElsewhere(MergeAll(a));
    MergeWithoutAll(Flatten(MergeAll(a)), y, REWRITTEN);
    MergeWithoutAll(MergeAll(a), MergeAll(b), REWRITTEN);
  }

  lemma OnePage(server: int -> Reply, f: string, start: int, all: seq<Payload>)
    requires Book(server, f, start, all) && |all| == 1
    ensures NumberRun(server, f, all[0], true, Some(Whole(start))) == Untouched && MergeAll(all) == all[0]
  {
    hide HasMore, TotalOf, Calm, Enough;
  }

  lemma PartsFit(shape: string -> Kind, f: string, all: seq<Payload>, a: seq<Payload>, b: seq<Payload>)
    requires |all| > MAX_PAGES && a == all[..MAX_PAGES] && b == all[MAX_PAGES..]
    requires forall i :: 0 <= i < |all| ==> WellShaped(shape, f, all[i])
    ensures AllFit(shape, a) && AllFit(shape, b)
  {
    hide Fits;
  }
}
