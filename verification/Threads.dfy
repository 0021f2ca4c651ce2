/**
 The read-only thread listing: a cursor walk over `thread/list` that keeps the first occurrence of
 every thread and refuses to follow a cursor twice.

 The server is a function from the cursor asked for to its answer.  Since no cursor is ever asked
 for twice, that covers a server that answers differently every time.
 */
module Threads {
  import opened Protocol

  type Cursor = Option<string>

  datatype ListedThread = ListedThread(id: ThreadId, cwd: string, metadata: string)

  datatype Answer =
    | RequestFailed
    | Undecodable
    | Page(data: seq<ListedThread>, next: Option<string>)

  datatype Listing =
    | Listed(threads: seq<ListedThread>)
    | RequestError
    | InvalidResponse
    | RepeatedCursor(cursor: string)

  type Server = Cursor -> Answer

  // ----- The cursor chain -----

  /** The `n`-th cursor of the walk; `Gone` past the end of the chain. */
  datatype Position = Gone | At(cursor: Cursor)

  function Follow(server: Server, p: Position): Position {
    if p.At? && server(p.cursor).Page? && server(p.cursor).next.Some? then At(server(p.cursor).next) else Gone
  }

  function CursorAt(server: Server, n: nat): Position {
    if n == 0 then At(None) else Follow(server, CursorAt(server, n - 1))
  }

  /** Two steps of the chain follow the same cursor. */
  ghost predicate Revisits(server: Server) {
    exists i: nat, j: nat :: i < j && CursorAt(server, i).At? && CursorAt(server, i) == CursorAt(server, j)
  }

  lemma {:induction false} GoneStays(server: Server, m: nat, n: nat)
    requires m <= n && CursorAt(server, m).Gone?
    ensures CursorAt(server, n).Gone?
  {
    if m < n {
      GoneStays(server, m, n - 1);
    }
  }

  ghost predicate IsChain(server: Server, cursors: seq<Cursor>) {
    forall i :: 0 <= i < |cursors| ==> CursorAt(server, i) == At(cursors[i])
  }

  function PagesOf(server: Server, cursors: seq<Cursor>): seq<ListedThread> {
    if cursors == [] then []
    else
      var answer := server(cursors[|cursors| - 1]);
      PagesOf(server, cursors[..|cursors| - 1]) + if answer.Page? then answer.data else []
  }

  function Ids(ts: seq<ListedThread>): set<ThreadId> {
    set t | t in ts :: t.id
  }

  function FirstById(ts: seq<ListedThread>): seq<ListedThread> {
    if ts == [] then []
    else
      var kept := FirstById(ts[..|ts| - 1]);
      var last := ts[|ts| - 1];
      if last.id in Ids(kept) then kept else kept + [last]
  }

  /** What the last answer makes of the whole walk. */
  ghost predicate Ends(server: Server, requests: seq<Cursor>, result: Listing) {
    && requests != []
    && match server(requests[|requests| - 1])
       case RequestFailed => result == RequestError
       case Undecodable => result == InvalidResponse
       case Page(_, None) => result == Listed(FirstById(PagesOf(server, requests)))
       case Page(_, Some(next)) => result == RepeatedCursor(next) && Some(next) in requests
  }

  // ----- First occurrences -----

  /** Index of the first thread with this id, or `|ts|`. */
  function FirstIndex(ts: seq<ListedThread>, id: ThreadId): (i: nat)
    ensures i <= |ts|
    ensures i < |ts| ==> ts[i].id == id
    ensures forall j :: 0 <= j < i ==> ts[j].id != id
  {
    if ts == [] || ts[0].id == id then 0 else 1 + FirstIndex(ts[1..], id)
  }

  lemma FirstIndexIs(ts: seq<ListedThread>, id: ThreadId, i: nat)
    requires i < |ts| && ts[i].id == id && forall j :: 0 <= j < i ==> ts[j].id != id
    ensures FirstIndex(ts, id) == i
  {
  }

  lemma IdsAppend(ts: seq<ListedThread>, t: ListedThread)
    ensures Ids(ts + [t]) == Ids(ts) + {t.id}
  {
    assert t in ts + [t];
    assert forall u :: u in ts ==> u in ts + [t];
  }

  lemma {:induction false} FirstByIdKeepsIds(ts: seq<ListedThread>)
    ensures Ids(FirstById(ts)) == Ids(ts)
  {
    if ts != [] {
      var n := |ts| - 1;
      FirstByIdKeepsIds(ts[..n]);
      assert ts == ts[..n] + [ts[n]];
      IdsAppend(ts[..n], ts[n]);
      IdsAppend(FirstById(ts[..n]), ts[n]);
    }
  }

  /** `r` lists first occurrences in `ts`, in the order of first occurrence. */
  ghost predicate FirstsInOrder(ts: seq<ListedThread>, r: seq<ListedThread>) {
    && (forall k :: 0 <= k < |r| ==> FirstIndex(ts, r[k].id) < |ts| && r[k] == ts[FirstIndex(ts, r[k].id)])
    && (forall k, l :: 0 <= k < l < |r| ==> FirstIndex(ts, r[k].id) < FirstIndex(ts, r[l].id))
  }

  lemma FirstsExtend(ts: seq<ListedThread>, t: ListedThread, r: seq<ListedThread>)
    requires FirstsInOrder(ts, r)
    ensures FirstsInOrder(ts + [t], r)
  {
    forall k | 0 <= k < |r|
      ensures FirstIndex(ts + [t], r[k].id) == FirstIndex(ts, r[k].id)
    {
      FirstIndexIs(ts + [t], r[k].id, FirstIndex(ts, r[k].id));
    }
  }

  lemma FirstsAdd(ts: seq<ListedThread>, t: ListedThread, r: seq<ListedThread>)
    requires FirstsInOrder(ts, r) && t.id !in Ids(ts)
    ensures FirstsInOrder(ts + [t], r + [t])
  {
    FirstsExtend(ts, t, r);
    forall j | 0 <= j < |ts|
      ensures ts[j].id != t.id
    {
      assert ts[j] in ts;
    }
    FirstIndexIs(ts + [t], t.id, |ts|);
    forall k | 0 <= k < |r|
      ensures FirstIndex(ts + [t], r[k].id) < |ts|
    {
      FirstIndexIs(ts + [t], r[k].id, FirstIndex(ts, r[k].id));
    }
  }

  /**
   The deduplication keeps exactly one entry per id, namely its first occurrence, in the order of
   first occurrence.
   */
  lemma {:induction false} FirstByIdMeaning(ts: seq<ListedThread>)
    ensures Ids(FirstById(ts)) == Ids(ts)
    ensures FirstsInOrder(ts, FirstById(ts))
  {
    FirstByIdKeepsIds(ts);
    if ts != [] {
      var n := |ts| - 1;
      FirstByIdMeaning(ts[..n]);
      assert ts == ts[..n] + [ts[n]];
      FirstsExtend(ts[..n], ts[n], FirstById(ts[..n]));
      if ts[n].id !in Ids(FirstById(ts[..n])) {
        FirstsAdd(ts[..n], ts[n], FirstById(ts[..n]));
      }
    }
  }

  lemma FirstByIdAppend(ts: seq<ListedThread>, t: ListedThread)
    ensures FirstById(ts + [t]) == if t.id in Ids(FirstById(ts)) then FirstById(ts) else FirstById(ts) + [t]
  {
    assert (ts + [t])[..|ts|] == ts;
  }

  /** One more entry of a page. */
  lemma FirstByIdOne(pages: seq<ListedThread>, data: seq<ListedThread>, i: nat)
    requires i < |data|
    ensures var before := FirstById(pages + data[..i]);
            FirstById(pages + data[..i + 1]) == if data[i].id in Ids(before) then before else before + [data[i]]
  {
    FirstByIdAppend(pages + data[..i], data[i]);
    assert pages + data[..i + 1] == (pages + data[..i]) + [data[i]];
  }

  /** Distinct cursors drawn from a finite set are at most as many as its elements. */
  lemma {:induction false} Pigeonhole(cursors: seq<string>, universe: set<string>)
    requires forall i :: 0 <= i < |cursors| ==> cursors[i] in universe
    requires forall i, j :: 0 <= i < j < |cursors| ==> cursors[i] != cursors[j]
    ensures |cursors| <= |universe|
  {
    if cursors != [] {
      var n := |cursors| - 1;
      Pigeonhole(cursors[..n], universe - {cursors[n]});
    }
  }

  /** The walk so far: `visited` are the server's cursors followed, in order; `cursor` is next. */
  ghost predicate Walked(
    server: Server, universe: set<string>, requests: seq<Cursor>, visited: seq<string>, cursor: Cursor)
  {
    && IsChain(server, requests) && CursorAt(server, |requests|) == At(cursor)
    && |requests| == |visited|
    && (forall i :: 0 <= i < |requests| ==> requests[i] == if i == 0 then None else Some(visited[i - 1]))
    && cursor == (if visited == [] then None else Some(visited[|visited| - 1]))
    && (forall i :: 0 <= i < |visited| ==> visited[i] in universe)
    && (forall i, j :: 0 <= i < j < |visited| ==> visited[i] != visited[j])
  }

  /** Asking for the next cursor asks for a new one. */
  lemma AskedOnce(
    server: Server, universe: set<string>, requests: seq<Cursor>, visited: seq<string>, cursor: Cursor)
    requires Walked(server, universe, requests, visited, cursor)
    ensures IsChain(server, requests + [cursor]) && |requests| <= |universe|
    ensures forall i, j :: 0 <= i < j < |requests| + 1 ==> (requests + [cursor])[i] != (requests + [cursor])[j]
  {
    Pigeonhole(visited, universe);
  }

  lemma WalksOn(
    server: Server, universe: set<string>, requests: seq<Cursor>, visited: seq<string>, cursor: Cursor, next: string)
    requires Walked(server, universe, requests, visited, cursor)
    requires server(cursor).Page? && server(cursor).next == Some(next)
    requires next in universe && next !in visited
    ensures Walked(server, universe, requests + [cursor], visited + [next], Some(next))
    ensures |visited| + 1 <= |universe|
  {
    assert CursorAt(server, |requests| + 1) == At(Some(next));
    Pigeonhole(visited + [next], universe);
  }

  /** A followed cursor that the server names again makes the chain revisit it. */
  lemma RevisitFound(
    server: Server, universe: set<string>, requests: seq<Cursor>, visited: seq<string>, cursor: Cursor, next: string)
    requires Walked(server, universe, requests, visited, cursor)
    requires server(cursor).Page? && server(cursor).next == Some(next) && next in visited
    ensures Revisits(server) && Some(next) in requests + [cursor]
  {
    var k :| 0 <= k < |visited| && visited[k] == next;
    var all := requests + [cursor];
    assert all[k + 1] == Some(next);
    assert CursorAt(server, k + 1) == At(Some(next)) == CursorAt(server, |requests| + 1);
  }

  /** A chain of distinct cursors that ends revisits nothing. */
  lemma ChainEnds(server: Server, requests: seq<Cursor>)
    requires requests != [] && IsChain(server, requests)
    requires forall i, j :: 0 <= i < j < |requests| ==> requests[i] != requests[j]
    requires CursorAt(server, |requests|).Gone?
    ensures !Revisits(server)
  {
    forall i: nat, j: nat | i < j && CursorAt(server, i).At?
      ensures CursorAt(server, i) != CursorAt(server, j)
    {
      if j >= |requests| {
        GoneStays(server, |requests|, j);
      }
    }
  }

  /** The request after the `i`-th carries the cursor that the page answering the `i`-th names. */
  ghost predicate LinkedAt(server: Server, requests: seq<Cursor>, i: nat) {
    i + 1 < |requests| ==>
      server(requests[i]).Page? && requests[i + 1].Some? && server(requests[i]).next == requests[i + 1]
  }

  /** The requests start without a cursor and go on with the cursor each page names. */
  ghost predicate Linked(server: Server, requests: seq<Cursor>) {
    (requests != [] ==> requests[0] == None) && forall i: nat :: LinkedAt(server, requests, i)
  }

  lemma ChainLinks(server: Server, requests: seq<Cursor>)
    requires IsChain(server, requests)
    ensures Linked(server, requests)
  {
    if requests != [] {
      assert CursorAt(server, 0) == At(requests[0]);
    }
    forall i: nat
      ensures LinkedAt(server, requests, i)
    {
      if i + 1 < |requests| {
        assert CursorAt(server, i) == At(requests[i]);
        assert CursorAt(server, i + 1) == At(requests[i + 1]);
        assert CursorAt(server, i + 1) == Follow(server, CursorAt(server, i));
      }
    }
  }

  class ThreadController {
    /** The inner loop of `list_all`: keeps the threads of one page that are new. */
    method AddNew(threads: seq<ListedThread>, seen: set<ThreadId>, data: seq<ListedThread>,
                  ghost pages: seq<ListedThread>)
      returns (threads': seq<ListedThread>, seen': set<ThreadId>)
      requires threads == FirstById(pages) && seen == Ids(threads)
      ensures threads' == FirstById(pages + data) && seen' == Ids(threads')
    {
      threads', seen' := threads, seen;
      var i := 0;
      assert pages + data[..0] == pages;
      while i < |data|
        invariant i <= |data|
        invariant threads' == FirstById(pages + data[..i]) && seen' == Ids(threads')
      {
        FirstByIdOne(pages, data, i);
        if data[i].id !in seen' {
          IdsAppend(threads', data[i]);
          seen' := seen' + {data[i].id};
          threads' := threads' + [data[i]];
        }
        i := i + 1;
      }
      assert data[..i] == data;
    }

    /**
     `list_all` against a server whose cursors come from the finite set `universe`.  It follows the
     chain, asks for no cursor twice, stops after at most one request more than there are cursors,
     returns the first occurrences over all pages, and reports a repeated cursor exactly when the
     chain revisits one.
     */
    method ListAll(server: Server, ghost universe: set<string>)
      returns (result: Listing, requests: seq<Cursor>)
      requires forall c :: server(c).Page? && server(c).next.Some? ==> server(c).next.value in universe
      ensures 0 < |requests| <= |universe| + 1
      ensures IsChain(server, requests)
      ensures Linked(server, requests)
      ensures forall i, j :: 0 <= i < j < |requests| ==> requests[i] != requests[j]
      ensures Ends(server, requests, result)
      ensures result.RepeatedCursor? <==> Revisits(server)
    {
      var cursor: Cursor := None;
      var seenCursors: set<string> := {};
      var seenThreads: set<ThreadId> := {};
      var threads: seq<ListedThread> := [];
      ghost var visited: seq<string> := [];
      requests := [];
      while true
        invariant Walked(server, universe, requests, visited, cursor)
        invariant forall c :: c in seenCursors <==> c in visited
        invariant threads == FirstById(PagesOf(server, requests)) && seenThreads == Ids(threads)
        invariant |visited| <= |universe|
        decreases |universe| - |visited|
      {
        ghost var before := requests;
        AskedOnce(server, universe, requests, visited, cursor);
        requests := requests + [cursor];
        assert requests[..|requests| - 1] == before;
        var answer := server(cursor);
        if !answer.Page? {
          ChainEnds(server, requests);
          ChainLinks(server, requests);
          return if answer.RequestFailed? then RequestError else InvalidResponse, requests;
        }
        ChainLinks(server, requests);
        threads, seenThreads := AddNew(threads, seenThreads, answer.data, PagesOf(server, before));
        if answer.next.None? {
          ChainEnds(server, requests);
          return Listed(threads), requests;
        }
        var next := answer.next.value;
        if next in seenCursors {
          RevisitFound(server, universe, before, visited, cursor, next);
          return RepeatedCursor(next), requests;
        }
        WalksOn(server, universe, before, visited, cursor, next);
        seenCursors := seenCursors + {next};
        visited := visited + [next];
        cursor := Some(next);
      }
    }
  }
}
