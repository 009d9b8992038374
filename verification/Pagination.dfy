/** Following page tokens against an arbitrary deterministic server.

    The loop reads a prefix of the chain that the tokens make. How it ends, and what it
    reports, is told by that chain alone. */
module Pagination {
  import opened Options
  import opened Payload

  /** What one tool call yields: an error, data that is no object, or a page. */
  datatype Reply = Failure | NotObject | Page(payload: Payload)

  const MAX_PAGES := 200
  const MAX_EMPTY_STREAK := 3
  const TOKEN_KEY := "next_page_token"

  datatype Stop =
    | Exhausted                    // no token, or no more pages promised
    | PageCap                      // the page limit
    | EmptyPages                   // three empty pages in a row
    | NotAnObject                  // data that is no object
    | TotalReached                 // the promised total is there

  datatype Meta = Meta(pagesMerged: nat, totalItems: nat, truncated: bool, nextToken: string, nextPage: Option<int>,
                       stoppedEarly: bool)

  datatype Result = Untouched | Merged(payload: Payload, meta: Meta) | CallFailed | InvalidPage

  function NextToken(p: Payload): string { GetString(p, TOKEN_KEY) }

  ghost predicate Trusted(shape: string -> Kind, f: string, server: string -> Reply) {
    forall t :: server(t).Page? ==> WellShaped(shape, f, server(t).payload)
  }

  // ------------------------------------------------------------- by page token

  /** The pages a loop reads, why it ends, and with which token. */
  datatype Walk = Broken | Walk(pages: seq<Payload>, count: nat, stop: Stop, token: string)

  function Prepend(p: Payload, w: Walk): Walk {
    if w.Broken? then w else w.(pages := [p] + w.pages)
  }

  predicate IsEmptyPage(p: Payload, f: string) { ListOf(p, f) == [] }

  /** The loop of `paginateByToken`, from a token, a page count and an empty streak. */
  function Follow(server: string -> Reply, f: string, token: string, count: nat, streak: nat): Walk
    requires 1 <= count <= MAX_PAGES
    decreases MAX_PAGES - count
  {
    if token == "" then Walk([], count, Exhausted, "")
    else if count >= MAX_PAGES then Walk([], count, PageCap, token)
    else match server(token)
      case Failure => Broken
      case NotObject => Walk([], count + 1, NotAnObject, token)
      case Page(p) =>
        var s := if IsEmptyPage(p, f) then streak + 1 else 0;
        if s >= MAX_EMPTY_STREAK then Walk([p], count + 1, EmptyPages, NextToken(p))
        else Prepend(p, Follow(server, f, NextToken(p), count + 1, s))
  }

  /** What `paginateByToken` returns. */
  function TokenRun(server: string -> Reply, f: string, first: Payload): Result {
    if NextToken(first) == "" then Untouched else
      var w := Follow(server, f, NextToken(first), 1, 0);
      if w.Broken? then CallFailed else
        var merged := MergeAll([first] + w.pages) - {TOKEN_KEY};
        Merged(merged, Meta(w.count, |ListOf(merged, f)|, w.stop.PageCap?,
                            if w.stop.PageCap? then w.token else "", None, w.stop.EmptyPages?))
  }

  /** The state of the loop after reading `pages`. */
  ghost predicate Reading(server: string -> Reply, f: string, first: Payload, pages: seq<Payload>, token: string,
                          count: nat, streak: nat)
    requires 1 <= count <= MAX_PAGES
  {
    var whole := Follow(server, f, NextToken(first), 1, 0);
    var rest := Follow(server, f, token, count, streak);
    if rest.Broken? then whole.Broken? else whole == rest.(pages := pages + rest.pages)
  }

  lemma ReadOne(server: string -> Reply, f: string, first: Payload, pages: seq<Payload>, token: string,
                count: nat, streak: nat)
    requires 1 <= count < MAX_PAGES && token != "" && server(token).Page?
    requires Reading(server, f, first, pages, token, count, streak)
    ensures var p := server(token).payload;
            var s := if IsEmptyPage(p, f) then streak + 1 else 0;
            if s >= MAX_EMPTY_STREAK then
              Follow(server, f, NextToken(first), 1, 0) == Walk(pages + [p], count + 1, EmptyPages, NextToken(p))
            else Reading(server, f, first, pages + [p], NextToken(p), count + 1, s)
  {
    hide IsEmptyPage, NextToken;
    var p := server(token).payload;
    var s := if IsEmptyPage(p, f) then streak + 1 else 0;
    if s < MAX_EMPTY_STREAK {
      var rest := Follow(server, f, NextToken(p), count + 1, s);
      if !rest.Broken? { assert pages + ([p] + rest.pages) == pages + [p] + rest.pages; }
    }
  }

  /** Merging one more page moves the list length by that page's list. */
  lemma MergeOne(shape: string -> Kind, f: string, pages: seq<Payload>, p: Payload)
    requires pages != [] && (forall i :: 0 <= i < |pages| ==> WellShaped(shape, f, pages[i])) && WellShaped(shape, f, p)
    ensures WellShaped(shape, f, MergeAll(pages)) && WellShaped(shape, f, MergeAll(pages + [p]))
    ensures MergeAll(pages + [p]) == Merge(MergeAll(pages), p)
    ensures |ListOf(MergeAll(pages + [p]), f)| == |ListOf(MergeAll(pages), f)| + |ListOf(p, f)|
  {
    hide WellShaped, Merge, ListOf;
    var all := pages + [p];
    assert all[..|pages|] == pages;
    forall i | 0 <= i < |all| ensures WellShaped(shape, f, all[i]) {}
    ListOfMergeAll(shape, f, pages);
    ListOfMergeAll(shape, f, all);
  }

  lemma TokenIsNoList(shape: string -> Kind, f: string, first: Payload, m: Payload)
    requires WellShaped(shape, f, first) && NextToken(first) != "" && WellShaped(shape, f, m)
    ensures WellShaped(shape, f, m - {TOKEN_KEY}) && ListOf(m - {TOKEN_KEY}, f) == ListOf(m, f)
  {
    assert KindOf(first[TOKEN_KEY]) == OtherKind;
  }

  /** The merge of the pages read so far, all well-shaped. */
  ghost predicate Collected(shape: string -> Kind, f: string, pages: seq<Payload>, merged: Payload) {
    pages != [] && (forall i :: 0 <= i < |pages| ==> WellShaped(shape, f, pages[i])) && merged == MergeAll(pages)
  }

  /** Merges one page and tells whether it added nothing. */
  method AppendPage(merged: Payload, page: Payload, ghost shape: string -> Kind, ghost f: string,
                    ghost pages: seq<Payload>) returns (r: Payload, empty: bool)
    requires Collected(shape, f, pages, merged) && WellShaped(shape, f, page)
    ensures Collected(shape, f, pages + [page], r)
    ensures empty == IsEmptyPage(page, f)
  {
    hide WellShaped, MergeAll, ListOf, Merge;
    MergeOne(shape, f, pages, page);
    var beforeLen := ListLength(merged, shape, f);
    r := MergePayloads(merged, page);
    var afterLen := ListLength(r, shape, f);
    empty := afterLen == beforeLen;
  }

  lemma MergedLists(shape: string -> Kind, f: string, pages: seq<Payload>, merged: Payload)
    requires Collected(shape, f, pages, merged)
    ensures WellShaped(shape, f, merged) && ListOf(merged, f) == Lists(pages, f)
  {
    hide WellShaped;
    ListOfMergeAll(shape, f, pages);
  }

  /** Whether the loop is still reading, or how it ended. */
  ghost predicate ReadUntil(server: string -> Reply, f: string, first: Payload, pages: seq<Payload>, token: string,
                            count: nat, streak: nat, done: Option<Stop>)
  {
    1 <= count <= MAX_PAGES &&
    match done
    case None => Reading(server, f, first, pages, token, count, streak)
    case Some(stop) => Follow(server, f, NextToken(first), 1, 0) == Walk(pages, count, stop, token)
  }

  lemma StartReading(server: string -> Reply, f: string, first: Payload)
    ensures ReadUntil(server, f, first, [], NextToken(first), 1, 0, None)
  {
    var w := Follow(server, f, NextToken(first), 1, 0);
    if !w.Broken? { assert [] + w.pages == w.pages; }
  }

  lemma StopReading(server: string -> Reply, f: string, first: Payload, pages: seq<Payload>, token: string,
                    count: nat, streak: nat)
    requires ReadUntil(server, f, first, pages, token, count, streak, None)
    ensures token == "" ==> ReadUntil(server, f, first, pages, token, count, streak, Some(Exhausted))
    ensures token != "" && count == MAX_PAGES ==>
              ReadUntil(server, f, first, pages, token, count, streak, Some(PageCap))
    ensures token != "" && count < MAX_PAGES && server(token).Failure? ==>
              Follow(server, f, NextToken(first), 1, 0).Broken?
    ensures token != "" && count < MAX_PAGES && server(token).NotObject? ==>
              ReadUntil(server, f, first, pages, token, count + 1, streak, Some(NotAnObject))
  {
    hide NextToken;
    assert pages + [] == pages;
  }

  lemma NextReading(server: string -> Reply, f: string, first: Payload, pages: seq<Payload>, token: string,
                    count: nat, streak: nat)
    requires ReadUntil(server, f, first, pages, token, count, streak, None)
    requires token != "" && count < MAX_PAGES && server(token).Page?
    ensures var p := server(token).payload;
            var s := if IsEmptyPage(p, f) then streak + 1 else 0;
            ReadUntil(server, f, first, pages + [p], NextToken(p), count + 1, s,
                      if s >= MAX_EMPTY_STREAK then Some(EmptyPages) else None)
  {
    hide NextToken, IsEmptyPage;
    ReadOne(server, f, first, pages, token, count, streak);
  }

  /** `paginateByToken`. */
  method PaginateByToken(server: string -> Reply, firstData: Payload, ghost shape: string -> Kind, ghost f: string)
    returns (r: Result)
    requires Trusted(shape, f, server) && WellShaped(shape, f, firstData)
    ensures r == TokenRun(server, f, firstData)
  {
    hide WellShaped, MergeAll, ListOf, NextToken, Follow, ReadUntil, IsEmptyPage, Collected;
    var currentToken := NextToken(firstData);
    if currentToken == "" { return Untouched; }
    var merged, pageCount, emptyStreak, lastToken, stoppedEarly := firstData, 1, 0, "", false;
    ghost var pages, stop: Option<Stop> := [], None;
    assert [firstData] + pages == [firstData];
    StartCollecting(shape, f, firstData);
    StartReading(server, f, firstData);
    while currentToken != ""
      invariant stop.None? && lastToken == "" && !stoppedEarly && 1 <= pageCount <= MAX_PAGES
      invariant Collected(shape, f, [firstData] + pages, merged)
      invariant ReadUntil(server, f, firstData, pages, currentToken, pageCount, emptyStreak, None)
      decreases MAX_PAGES - pageCount
    {
      StopReading(server, f, firstData, pages, currentToken, pageCount, emptyStreak);
      if pageCount >= MAX_PAGES {
        lastToken, stop := currentToken, Some(PageCap);
        break;
      }
      pageCount := pageCount + 1;
      var resp := server(currentToken);
      if resp.Failure? { return CallFailed; }
      if resp.NotObject? {
        stop := Some(NotAnObject);
        break;
      }
      NextReading(server, f, firstData, pages, currentToken, pageCount - 1, emptyStreak);
      assert [firstData] + (pages + [resp.payload]) == [firstData] + pages + [resp.payload];
      var empty;
      merged, empty := AppendPage(merged, resp.payload, shape, f, [firstData] + pages);
      pages := pages + [resp.payload];
      currentToken := NextToken(resp.payload);
      if empty {
        emptyStreak := emptyStreak + 1;
        if emptyStreak >= MAX_EMPTY_STREAK {
          stoppedEarly, stop := true, Some(EmptyPages);
          break;
        }
      } else {
        emptyStreak := 0;
      }
    }
    if stop.None? {
      StopReading(server, f, firstData, pages, currentToken, pageCount, emptyStreak);
      stop := Some(Exhausted);
    }
    MergedLists(shape, f, [firstData] + pages, merged);
    TokenIsNoList(shape, f, firstData, merged);
    RunIs(server, f, firstData, pages, currentToken, pageCount, emptyStreak, stop.value, merged, shape);
    merged := merged - {TOKEN_KEY};
    var total := ListLength(merged, shape, f);
    r := Merged(merged, Meta(pageCount, total, lastToken != "", lastToken, None, stoppedEarly));
  }

  lemma StartCollecting(shape: string -> Kind, f: string, first: Payload)
    requires WellShaped(shape, f, first)
    ensures Collected(shape, f, [first], first)
  {}

  lemma RunIs(server: string -> Reply, f: string, first: Payload, pages: seq<Payload>, token: string,
              count: nat, streak: nat, stop: Stop, merged: Payload, shape: string -> Kind)
    requires NextToken(first) != "" && ReadUntil(server, f, first, pages, token, count, streak, Some(stop))
    requires Collected(shape, f, [first] + pages, merged)
    ensures var m := merged - {TOKEN_KEY};
            TokenRun(server, f, first) ==
            Merged(m, Meta(count, |ListOf(m, f)|, stop.PageCap?, if stop.PageCap? then token else "", None,
                           stop.EmptyPages?))
  {
    hide Follow, NextToken, MergeAll, ListOf, WellShaped;
  }
  // ------------------------------------------------------ the unbounded chain

  /** Up to `n` pages reached from a token, each through the token of the one before. */
  function Chain(server: string -> Reply, token: string, n: nat): (pages: seq<Payload>)
    ensures |pages| <= n
    decreases n
  {
    if n == 0 || token == "" || !server(token).Page? then []
    else [server(token).payload] + Chain(server, NextToken(server(token).payload), n - 1)
  }

  /** The token left after reading pages. */
  function LastToken(token: string, pages: seq<Payload>): string {
    if pages == [] then token else NextToken(pages[|pages| - 1])
  }

  predicate ThreeEmpty(pages: seq<Payload>, f: string, i: nat)
    requires i + 2 < |pages|
  {
    NoItems(pages[i], f) && NoItems(pages[i + 1], f) && NoItems(pages[i + 2], f)
  }

  /** The page's list, if it has one, is empty. */
  predicate NoItems(p: Payload, f: string) { f in p && p[f].Array? ==> |p[f].items| == 0 }

  /** No three empty pages in a row, `streak` empty ones coming before the first. */
  ghost predicate CalmFrom(pages: seq<Payload>, f: string, streak: nat) {
    && (forall i :: 0 <= i < |pages| - 2 ==> !ThreeEmpty(pages, f, i))
    && (streak >= 1 && |pages| >= 2 ==> !(NoItems(pages[0], f) && NoItems(pages[1], f)))
    && (streak >= 2 && |pages| >= 1 ==> !NoItems(pages[0], f))
  }

  /** No three empty pages in a row. */
  ghost predicate Calm(pages: seq<Payload>, f: string) { CalmFrom(pages, f, 0) }

  lemma EmptyIs(p: Payload, f: string)
    ensures IsEmptyPage(p, f) <==> NoItems(p, f)
  {}

  lemma CalmStep(p: Payload, rest: seq<Payload>, f: string, streak: nat)
    requires streak < MAX_EMPTY_STREAK
    ensures var s := if IsEmptyPage(p, f) then streak + 1 else 0;
            CalmFrom([p] + rest, f, streak) <==> s < MAX_EMPTY_STREAK && CalmFrom(rest, f, s)
  {
    hide CalmFrom;
    if CalmFrom([p] + rest, f, streak) { CalmTail(p, rest, f, streak); }
    var s := if IsEmptyPage(p, f) then streak + 1 else 0;
    if s < MAX_EMPTY_STREAK && CalmFrom(rest, f, s) { CalmExtend(p, rest, f, streak); }
  }

  lemma CalmTail(p: Payload, rest: seq<Payload>, f: string, streak: nat)
    requires streak < MAX_EMPTY_STREAK && CalmFrom([p] + rest, f, streak)
    ensures var s := if IsEmptyPage(p, f) then streak + 1 else 0;
            s < MAX_EMPTY_STREAK && CalmFrom(rest, f, s)
  {
    hide NoItems, IsEmptyPage;
    EmptyIs(p, f);
    var all := [p] + rest;
    forall i | 0 <= i < |rest| - 2 ensures !ThreeEmpty(rest, f, i) {
      assert ThreeEmpty(rest, f, i) == ThreeEmpty(all, f, i + 1);
    }
    assert |rest| >= 2 ==> !ThreeEmpty(all, f, 0);
  }

  lemma CalmExtend(p: Payload, rest: seq<Payload>, f: string, streak: nat)
    requires var s := if IsEmptyPage(p, f) then streak + 1 else 0;
             s < MAX_EMPTY_STREAK && CalmFrom(rest, f, s)
    ensures CalmFrom([p] + rest, f, streak)
  {
    hide NoItems, IsEmptyPage;
    EmptyIs(p, f);
    var all := [p] + rest;
    forall i | 0 <= i < |all| - 2 ensures !ThreeEmpty(all, f, i) {
      if i > 0 { assert ThreeEmpty(all, f, i) == ThreeEmpty(rest, f, i - 1); }
    }
  }

  /** How the loop must end, in terms of the chain alone, at most `room` pages being still
      allowed. None is a failed call. */
  ghost function EndOf(server: string -> Reply, f: string, token: string, room: int, streak: nat, chain: seq<Payload>)
    : Option<Stop>
  {
    var last := LastToken(token, chain);
    if !CalmFrom(chain, f, streak) then Some(EmptyPages)
    else if last == "" then Some(Exhausted)
    else if |chain| >= room then Some(PageCap)
    else if server(last).NotObject? then Some(NotAnObject)
    else None
  }

  /** The loop ends as the chain demands, having read all of it unless three pages are empty. */
  ghost predicate Explained(server: string -> Reply, w: Walk, f: string, token: string, count: nat, streak: nat,
                            chain: seq<Payload>)
    requires 1 <= count <= MAX_PAGES
  {
    EndOf(server, f, token, MAX_PAGES - count, streak, chain) == (if w.Walk? then Some(w.stop) else None) &&
    (w.Walk? ==>
       && w.pages <= chain && w.token == LastToken(token, w.pages)
       && w.count == count + |w.pages| + (if w.stop.NotAnObject? then 1 else 0)
       && (w.stop.EmptyPages? || w.pages == chain))
  }

  lemma {:induction false} FollowExplained(server: string -> Reply, f: string, token: string, count: nat, streak: nat)
    requires 1 <= count <= MAX_PAGES && streak < MAX_EMPTY_STREAK
    ensures Explained(server, Follow(server, f, token, count, streak), f, token, count, streak,
                      Chain(server, token, MAX_PAGES - count))
    decreases MAX_PAGES - count
  {
    hide NextToken, IsEmptyPage, CalmFrom, Explained, LastToken;
    if token == "" || count == MAX_PAGES || !server(token).Page? {
      EndExplained(server, Follow(server, f, token, count, streak), f, token, count, streak);
    } else {
      var p := server(token).payload;
      var s := if IsEmptyPage(p, f) then streak + 1 else 0;
      var next := Chain(server, NextToken(p), MAX_PAGES - count - 1);
      if s < MAX_EMPTY_STREAK {
        FollowExplained(server, f, NextToken(p), count + 1, s);
        PageExplained(server, Follow(server, f, NextToken(p), count + 1, s), p, f, token, count, streak, next);
      } else {
        StreakExplained(server, p, f, token, count, streak, next);
      }
    }
  }

  lemma EndExplained(server: string -> Reply, w: Walk, f: string, token: string, count: nat, streak: nat)
    requires 1 <= count <= MAX_PAGES
    requires if token == "" then w == Walk([], count, Exhausted, "")
             else if count == MAX_PAGES then w == Walk([], count, PageCap, token)
             else if server(token).NotObject? then w == Walk([], count + 1, NotAnObject, token)
             else w == Broken
    ensures Explained(server, w, f, token, count, streak, [])
  {
    CalmEmpty(f, streak);
  }

  lemma PageExplained(server: string -> Reply, w: Walk, p: Payload, f: string, token: string, count: nat, streak: nat,
                      next: seq<Payload>)
    requires 1 <= count < MAX_PAGES && token != "" && streak < MAX_EMPTY_STREAK
    requires var s := if IsEmptyPage(p, f) then streak + 1 else 0;
             s < MAX_EMPTY_STREAK && Explained(server, w, f, NextToken(p), count + 1, s, next)
    ensures Explained(server, Prepend(p, w), f, token, count, streak, [p] + next)
  {
    hide NextToken, IsEmptyPage, CalmFrom, LastToken;
    CalmStep(p, next, f, streak);
    LastTokenStep(p, next, token);
    if w.Walk? { LastTokenStep(p, w.pages, token); }
  }

  lemma StreakExplained(server: string -> Reply, p: Payload, f: string, token: string, count: nat, streak: nat,
                        next: seq<Payload>)
    requires 1 <= count < MAX_PAGES && streak < MAX_EMPTY_STREAK && IsEmptyPage(p, f) && streak + 1 >= MAX_EMPTY_STREAK
    ensures Explained(server, Walk([p], count + 1, EmptyPages, NextToken(p)), f, token, count, streak, [p] + next)
  {
    hide NextToken, IsEmptyPage, CalmFrom;
    CalmStep(p, next, f, streak);
  }

  lemma CalmEmpty(f: string, streak: nat)
    ensures CalmFrom([], f, streak)
  {}

  lemma LastTokenStep(p: Payload, rest: seq<Payload>, token: string)
    ensures LastToken(token, [p] + rest) == LastToken(NextToken(p), rest)
  {}

  lemma {:induction false} ChainTrusted(server: string -> Reply, shape: string -> Kind, f: string, token: string,
                                        n: nat)
    requires Trusted(shape, f, server)
    ensures forall i :: 0 <= i < |Chain(server, token, n)| ==> WellShaped(shape, f, Chain(server, token, n)[i])
    decreases n
  {
    hide WellShaped, NextToken;
    if n > 0 && token != "" && server(token).Page? {
      ChainTrusted(server, shape, f, NextToken(server(token).payload), n - 1);
    }
  }

  /** A chain read in two parts. */
  lemma {:induction false} ChainSplit(server: string -> Reply, token: string, i: nat, n: nat)
    requires i <= n && |Chain(server, token, n)| == n
    ensures Chain(server, token, i) == Chain(server, token, n)[..i]
    ensures Chain(server, LastToken(token, Chain(server, token, i)), n - i) == Chain(server, token, n)[i..]
    decreases n
  {
    hide NextToken;
    if i > 0 {
      var p := server(token).payload;
      ChainSplit(server, NextToken(p), i - 1, n - 1);
      LastTokenStep(p, Chain(server, NextToken(p), i - 1), token);
    }
  }

  lemma {:induction false} ChainPrefix(server: string -> Reply, token: string, m: nat, n: nat)
    requires m <= |Chain(server, token, n)|
    ensures Chain(server, token, m) == Chain(server, token, n)[..m]
    decreases n
  {
    hide NextToken;
    if m > 0 { ChainPrefix(server, NextToken(server(token).payload), m - 1, n - 1); }
  }

  /** A run merges the first `n` follow-up pages of the chain, at most 199, in order, and
      all the chain gives within that bound unless it stopped early. If it reports neither
      truncation nor an early stop, it read the chain to its end or met data that is no
      object, a reply it counts as a merged page. */
  lemma TokenRunIsPrefix(server: string -> Reply, shape: string -> Kind, f: string, first: Payload) returns (n: nat)
    requires Trusted(shape, f, server) && WellShaped(shape, f, first)
    requires TokenRun(server, f, first).Merged?
    ensures n <= 199 && TokenRun(server, f, first).meta.pagesMerged <= 200
    ensures var r, chain := TokenRun(server, f, first), Chain(server, NextToken(first), n);
            && |chain| == n
            && r.payload == MergeAll([first] + chain) - {"next_page_token"}
            && ListOf(r.payload, f) == Lists([first] + chain, f) && r.meta.totalItems == |Lists([first] + chain, f)|
            && (r.meta.stoppedEarly || chain == Chain(server, NextToken(first), MAX_PAGES - 1))
    ensures var meta, left := TokenRun(server, f, first).meta,
                              LastToken(NextToken(first), Chain(server, NextToken(first), n));
            && (!meta.truncated && !meta.stoppedEarly ==>
                  left == "" || (server(left).NotObject? && meta.pagesMerged == n + 2))
            && (meta.truncated || meta.stoppedEarly || left == "" ==> meta.pagesMerged == n + 1)
  {
    hide NextToken, WellShaped, MergeAll, Explained, Lists, ListOf, Follow, LastToken, Chain;
    var t := NextToken(first);
    n := PrefixRead(server, f, first);
    ChainTrusted(server, shape, f, t, n);
    var all := [first] + Chain(server, t, n);
    assert forall i :: 0 <= i < |Chain(server, t, n)| ==> all[i + 1] == Chain(server, t, n)[i];
    ListOfMergeAll(shape, f, all);
    TokenIsNoList(shape, f, first, MergeAll(all));
  }

  lemma PrefixRead(server: string -> Reply, f: string, first: Payload) returns (n: nat)
    requires NextToken(first) != "" && Follow(server, f, NextToken(first), 1, 0).Walk?
    ensures var w, chain := Follow(server, f, NextToken(first), 1, 0), Chain(server, NextToken(first), n);
            && n <= MAX_PAGES - 1 && |chain| == n && w.pages == chain && w.count <= MAX_PAGES
            && w.token == LastToken(NextToken(first), chain) && (w.stop.Exhausted? ==> w.token == "")
            && !w.stop.TotalReached? && w.count == 1 + n + (if w.stop.NotAnObject? then 1 else 0)
            && (w.stop.NotAnObject? ==> w.token != "" && server(w.token).NotObject?)
            && (w.stop.EmptyPages? || chain == Chain(server, NextToken(first), MAX_PAGES - 1))
  {
    hide NextToken, CalmFrom;
    var t := NextToken(first);
    FollowExplained(server, f, t, 1, 0);
    FollowCount(server, f, t, 1, 0);
    n := |Follow(server, f, t, 1, 0).pages|;
    ChainPrefix(server, t, n, MAX_PAGES - 1);
  }

  lemma {:induction false} FollowCount(server: string -> Reply, f: string, token: string, count: nat, streak: nat)
    requires 1 <= count <= MAX_PAGES
    ensures var w := Follow(server, f, token, count, streak);
            w.Walk? ==>
              && count <= w.count <= MAX_PAGES && !w.stop.TotalReached?
              && (w.stop.NotAnObject? ==> w.token != "" && server(w.token).NotObject?)
    decreases MAX_PAGES - count
  {
    hide NextToken, IsEmptyPage;
    if token != "" && count < MAX_PAGES && server(token).Page? {
      var p := server(token).payload;
      FollowCount(server, f, NextToken(p), count + 1, if IsEmptyPage(p, f) then streak + 1 else 0);
    }
  }

  /** Truncation is reported, with the token to go on from, exactly when 199 further pages
      came, no three in a row were empty, and the last one still names a next page. Nothing
      else makes a token be reported. */
  lemma TruncatedIff(server: string -> Reply, f: string, first: Payload, next: string)
    ensures var r, chain := TokenRun(server, f, first), Chain(server, NextToken(first), MAX_PAGES - 1);
            && (r.Merged? && r.meta.truncated && r.meta.nextToken == next <==>
                |chain| == 199 && Calm(chain, f) && next != "" && LastToken(NextToken(first), chain) == next)
            && (r.Merged? && !r.meta.truncated ==> r.meta.nextToken == "")
            && (r.Merged? ==> r.meta.nextPage == None)
  {
    hide NextToken, CalmFrom;
    FollowExplained(server, f, NextToken(first), 1, 0);
  }

  lemma {:induction false} ChainEnds(server: string -> Reply, token: string, n: nat)
    ensures var chain := Chain(server, token, n);
            |chain| == n || LastToken(token, chain) == "" || !server(LastToken(token, chain)).Page?
    decreases n
  {
    hide NextToken;
    if n > 0 && token != "" && server(token).Page? {
      var p := server(token).payload;
      ChainEnds(server, NextToken(p), n - 1);
      LastTokenStep(p, Chain(server, NextToken(p), n - 1), token);
    }
  }

  /** Replies are dropped without a word, the last page read still naming a next one, exactly
      when fewer than 199 further pages came, no three in a row were empty, and the token
      they end with gets data that is no object. That reply is counted as a merged page. */
  lemma DroppedIff(server: string -> Reply, f: string, first: Payload)
    ensures var r, chain := TokenRun(server, f, first), Chain(server, NextToken(first), MAX_PAGES - 1);
            var left := LastToken(NextToken(first), chain);
            && ((r.Merged? && !r.meta.truncated && !r.meta.stoppedEarly && left != "") <==>
                (|chain| < MAX_PAGES - 1 && Calm(chain, f) && left != "" && server(left).NotObject?))
            && (r.Merged? && !r.meta.truncated && !r.meta.stoppedEarly && left != "" ==>
                  r.payload == MergeAll([first] + chain) - {TOKEN_KEY} && r.meta.pagesMerged == |chain| + 2)
  {
    hide NextToken, CalmFrom;
    FollowExplained(server, f, NextToken(first), 1, 0);
  }

  /** The other ends: the early stop is reported exactly when three pages in a row were
      empty, and the call fails exactly when none were and the token left is refused. */
  lemma StopsIff(server: string -> Reply, f: string, first: Payload)
    ensures var r, chain := TokenRun(server, f, first), Chain(server, NextToken(first), MAX_PAGES - 1);
            var left := LastToken(NextToken(first), chain);
            && (r.Untouched? <==> NextToken(first) == "")
            && (r.Merged? && r.meta.stoppedEarly <==> !Calm(chain, f))
            && (r.CallFailed? <==>
                |chain| < MAX_PAGES - 1 && Calm(chain, f) && left != "" && server(left).Failure?)
  {
    hide NextToken, CalmFrom;
    FollowExplained(server, f, NextToken(first), 1, 0);
    ChainEnds(server, NextToken(first), MAX_PAGES - 1);
    if NextToken(first) == "" { CalmEmpty(f, 0); }
  }

  /** A server whose second page is no object: its third page is lost, and the run reports
      two pages merged. */
  lemma DropHappens(f: string)
    ensures var first: Payload := map[TOKEN_KEY := Value.Text("2")];
            var third: Payload := map["list" := Array([Scalar(3)])];
            var server := (t: string) => if t == "2" then NotObject else Page(third);
            var r := TokenRun(server, f, first);
            r.Merged? && r.payload == map[] && !r.meta.truncated && !r.meta.stoppedEarly && r.meta.pagesMerged == 2
  {
    var first: Payload := map[TOKEN_KEY := Value.Text("2")];
    var third: Payload := map["list" := Array([Scalar(3)])];
    var server := (t: string) => if t == "2" then NotObject else Page(third);
    assert NextToken(first) == "2";
    assert Follow(server, f, "2", 1, 0) == Walk([], 2, NotAnObject, "2");
    assert [first] + [] == [first];
    assert MergeAll([first]) - {TOKEN_KEY} == map[];
  }

  // ------------------------------------------------------------ resuming a run

  /** What the user gets by running once, and again from the reported token while there
      is one, up to `rounds` runs, the outputs merged. */
  function Resumed(server: string -> Reply, f: string, first: Payload, rounds: nat): Payload
    requires rounds > 0
    decreases rounds
  {
    match TokenRun(server, f, first)
    case Untouched => first - {TOKEN_KEY}
    case Merged(payload, meta) =>
      if meta.truncated && rounds > 1 && server(meta.nextToken).Page? then
        Merge(payload, Resumed(server, f, server(meta.nextToken).payload, rounds - 1))
      else payload
    case _ => map[]
  }

  /** The chain from a token has exactly `n` pages and no three empty ones in a row. */
  ghost predicate Finite(server: string -> Reply, f: string, token: string, n: nat) {
    var chain := Chain(server, token, n);
    |chain| == n && LastToken(token, chain) == "" && Calm(chain, f)
  }

  lemma {:induction false} LongEnough(server: string -> Reply, token: string, n: nat, m: nat)
    requires n <= m && |Chain(server, token, n)| == n && LastToken(token, Chain(server, token, n)) == ""
    ensures Chain(server, token, m) == Chain(server, token, n)
    decreases n
  {
    hide NextToken;
    if n > 0 {
      var p := server(token).payload;
      LastTokenStep(p, Chain(server, NextToken(p), n - 1), token);
      LongEnough(server, NextToken(p), n - 1, m - 1);
    }
  }

  lemma CalmSplit(pages: seq<Payload>, f: string, i: nat)
    requires Calm(pages, f) && i <= |pages|
    ensures Calm(pages[..i], f) && Calm(pages[i..], f)
  {
    hide IsEmptyPage;
    var tail := pages[i..];
    forall j | 0 <= j < |tail| - 2 ensures !ThreeEmpty(tail, f, j) {
      assert ThreeEmpty(tail, f, j) == ThreeEmpty(pages, f, i + j);
    }
    forall j | 0 <= j < i - 2 ensures !ThreeEmpty(pages[..i], f, j) {
      assert ThreeEmpty(pages[..i], f, j) == ThreeEmpty(pages, f, j);
    }
  }

  /** One run of a short chain reads all of it. */
  lemma ShortRun(server: string -> Reply, f: string, first: Payload, n: nat)
    requires n < MAX_PAGES && Finite(server, f, NextToken(first), n)
    ensures var r := TokenRun(server, f, first);
            var all := MergeAll([first] + Chain(server, NextToken(first), n)) - {TOKEN_KEY};
            if r.Untouched? then all == first - {TOKEN_KEY} else r.Merged? && !r.meta.truncated && r.payload == all
  {
    hide NextToken, CalmFrom;
    FollowExplained(server, f, NextToken(first), 1, 0);
    LongEnough(server, NextToken(first), n, MAX_PAGES - 1);
  }

  /** One run of a long chain reads 200 pages, and the next run starts at the 201st. */
  lemma LongRun(server: string -> Reply, f: string, first: Payload, n: nat)
    requires n >= MAX_PAGES && Finite(server, f, NextToken(first), n)
    ensures var r, chain := TokenRun(server, f, first), Chain(server, NextToken(first), n);
            && r.Merged? && r.meta.truncated
            && r.payload == MergeAll([first] + chain[..MAX_PAGES - 1]) - {TOKEN_KEY}
            && server(r.meta.nextToken) == Page(chain[MAX_PAGES - 1])
            && Finite(server, f, NextToken(chain[MAX_PAGES - 1]), n - MAX_PAGES)
            && Chain(server, NextToken(chain[MAX_PAGES - 1]), n - MAX_PAGES) == chain[MAX_PAGES..]
  {
    hide NextToken, Calm, MergeAll, Chain;
    ChainAt(server, f, NextToken(first), n);
    FollowExplained(server, f, NextToken(first), 1, 0);
  }

  /** A long chain around its 200th page. */
  lemma ChainAt(server: string -> Reply, f: string, token: string, n: nat)
    requires n >= MAX_PAGES && Finite(server, f, token, n)
    ensures var chain := Chain(server, token, n);
            var head, page := chain[..MAX_PAGES - 1], chain[MAX_PAGES - 1];
            && Chain(server, token, MAX_PAGES - 1) == head && CalmFrom(head, f, 0)
            && LastToken(token, head) != "" && server(LastToken(token, head)) == Page(page)
            && Finite(server, f, NextToken(page), n - MAX_PAGES)
            && Chain(server, NextToken(page), n - MAX_PAGES) == chain[MAX_PAGES..]
  {
    hide NextToken, CalmFrom, Chain, LastToken;
    var m := MAX_PAGES - 1;
    var chain := Chain(server, token, n);
    CalmSplit(chain, f, m);
    CalmSplit(chain, f, MAX_PAGES);
    ChainSplit(server, token, m, n);
    ChainSplit(server, token, MAX_PAGES, n);
    FirstOfChain(server, LastToken(token, chain[..m]), n - m);
    LastTokenSplit(token, chain, MAX_PAGES);
  }

  lemma FirstOfChain(server: string -> Reply, token: string, n: nat)
    requires Chain(server, token, n) != []
    ensures token != "" && server(token) == Page(Chain(server, token, n)[0])
  {
    hide NextToken;
  }

  lemma LastTokenSplit(token: string, chain: seq<Payload>, i: nat)
    requires 0 < i <= |chain|
    ensures LastToken(token, chain[..i]) == NextToken(chain[i - 1])
    ensures LastToken(NextToken(chain[i - 1]), chain[i..]) == LastToken(token, chain)
  {
    hide NextToken;
  }

  lemma BlocksMerge(shape: string -> Kind, f: string, a: seq<Payload>, b: seq<Payload>)
    requires a != [] && b != []
    requires forall i :: 0 <= i < |a + b| ==> WellShaped(shape, f, (a + b)[i])
    ensures MergeAll(a + b) - {TOKEN_KEY} == Merge(MergeAll(a) - {TOKEN_KEY}, MergeAll(b) - {TOKEN_KEY})
  {
    assert forall i :: 0 <= i < |a| ==> (a + b)[i] == a[i];
    assert forall i :: 0 <= i < |b| ==> (a + b)[|a| + i] == b[i];
    hide Fits, MergeAll, Merge;
    MergeAllConcat(shape, a, b);
    MergeWithout(MergeAll(a), MergeAll(b), TOKEN_KEY);
  }

  /** Runs resumed from the reported token add up to the whole chain, in every field of
      the payload, if no three pages in a row are empty. */
  lemma {:induction false} ResumedIsChain(server: string -> Reply, shape: string -> Kind, f: string, first: Payload,
                                          n: nat, rounds: nat)
    requires Trusted(shape, f, server) && WellShaped(shape, f, first)
    requires Finite(server, f, NextToken(first), n) && n + 1 <= MAX_PAGES * rounds
    ensures Resumed(server, f, first, rounds) ==
            MergeAll([first] + Chain(server, NextToken(first), n)) - {TOKEN_KEY}
    decreases rounds
  {
    hide NextToken, WellShaped, MergeAll, Merge, TokenRun, Finite, Chain;
    if n < MAX_PAGES {
      ShortRun(server, f, first, n);
    } else {
      var chain := Chain(server, NextToken(first), n);
      assert |chain| == n by { FiniteLength(server, f, NextToken(first), n); }
      LongRun(server, f, first, n);
      ChainTrusted(server, shape, f, NextToken(first), n);
      var a, second := [first] + chain[..MAX_PAGES - 1], chain[MAX_PAGES - 1];
      ResumedIsChain(server, shape, f, second, n - MAX_PAGES, rounds - 1);
      Regroup(first, chain);
      assert forall i :: 0 <= i < n ==> ([first] + chain)[i + 1] == chain[i];
      BlocksMerge(shape, f, a, [second] + chain[MAX_PAGES..]);
    }
  }

  lemma Regroup(first: Payload, chain: seq<Payload>)
    requires |chain| >= MAX_PAGES
    ensures [first] + chain == [first] + chain[..MAX_PAGES - 1] + ([chain[MAX_PAGES - 1]] + chain[MAX_PAGES..])
  {}

  lemma FiniteLength(server: string -> Reply, f: string, token: string, n: nat)
    requires Finite(server, f, token, n)
    ensures |Chain(server, token, n)| == n
  {}
}
