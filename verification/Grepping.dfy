// Paged grep (crates/duckfs/core/src/queries.rs:416-586): files in path order under one byte
// budget per call, stopping only between files.
module Grepping {
  import opened Wrappers
  import opened Texts
  import opened Kinds
  import opened Order
  import opened Paths
  import opened Trees
  import opened Finding

  const MAX_GREP_HITS_PER_CALL := 4096

  const NEWLINE: Byte := 10

  // `bytes` are a file's bytes, and `holds` says whether a line of them holds the pattern.
  datatype Call = Call(bytes: Id -> Text, holds: Text -> bool, limit: nat, budget: nat)

  datatype GrepHit = GrepHit(path: Text, line: nat)

  datatype Scan = Scan(remaining: nat, hits: seq<GrepHit>, last: Option<Text>, next: Option<Text>, done: bool)

  function Fresh(call: Call): Scan {
    Scan(call.budget, [], None, None, false)
  }

  // ---- the lines of a file -------------------------------------------------------------------

  // `bytes.split(|&b| b == b'\n')`.
  function LinesOf(bytes: Text): (lines: seq<Text>)
    ensures lines != []
  {
    if bytes == [] then [[]]
    else
      var rest := LinesOf(bytes[1..]);
      if bytes[0] == NEWLINE then [[]] + rest else [[bytes[0]] + rest[0]] + rest[1..]
  }

  function Unsplit(lines: seq<Text>): Text
    requires lines != []
  {
    if |lines| == 1 then lines[0] else lines[0] + [10] + Unsplit(lines[1..])
  }

  // The lines are the bytes between the newlines.
  lemma {:induction false} LinesAreExact(bytes: Text)
    ensures Unsplit(LinesOf(bytes)) == bytes && forall i :: 0 <= i < |LinesOf(bytes)| ==> 10 !in LinesOf(bytes)[i]
  {
    if bytes != [] {
      var rest := LinesOf(bytes[1..]);
      LinesAreExact(bytes[1..]);
      if bytes[0] == NEWLINE {
        assert ([[]] + rest)[1..] == rest;
      } else {
        assert ([[bytes[0]] + rest[0]] + rest[1..])[1..] == rest[1..];
      }
    }
  }

  // The numbers, from one, of those of the first lines that hold the pattern.
  function MatchingUpTo(holds: Text -> bool, lines: seq<Text>, count: nat): seq<nat>
    requires count <= |lines|
  {
    if count == 0 then []
    else
      var front := MatchingUpTo(holds, lines, count - 1);
      if holds(lines[count - 1]) then front + [count] else front
  }

  function Matching(call: Call, id: Id): seq<nat> {
    MatchingUpTo(call.holds, LinesOf(call.bytes(id)), |LinesOf(call.bytes(id))|)
  }

  predicate Rises(numbers: seq<nat>) {
    forall i, j :: 0 <= i < j < |numbers| ==> numbers[i] < numbers[j]
  }

  lemma {:induction false} MatchingIs(holds: Text -> bool, lines: seq<Text>, count: nat)
    requires count <= |lines|
    ensures forall n :: n in MatchingUpTo(holds, lines, count) <==> 1 <= n <= count && holds(lines[n - 1])
    ensures Rises(MatchingUpTo(holds, lines, count))
  {
    if count > 0 {
      MatchingIs(holds, lines, count - 1);
      var front, found := MatchingUpTo(holds, lines, count - 1), MatchingUpTo(holds, lines, count);
      assert forall i :: 0 <= i < |front| ==> front[i] in front;
    }
  }

  lemma {:induction false} MatchingGrows(holds: Text -> bool, lines: seq<Text>, count: nat, all: nat)
    requires count <= all <= |lines|
    ensures MatchingUpTo(holds, lines, count) <= MatchingUpTo(holds, lines, all)
  {
    if count < all { MatchingGrows(holds, lines, count, all - 1); }
  }

  // ---- scanning ------------------------------------------------------------------------------

  function Front<T>(items: seq<T>, count: nat): seq<T> {
    if |items| <= count then items else items[..count]
  }

  // The hits of one file, as many as the reply still has room for.
  function FileHits(call: Call, file: Hit, room: nat): seq<GrepHit> {
    HitsAt(file.path, Front(Matching(call, file.what.id), room))
  }

  function HitsAt(path: Text, lines: seq<nat>): (hits: seq<GrepHit>)
    ensures |hits| == |lines| && forall i :: 0 <= i < |hits| ==> hits[i] == GrepHit(path, lines[i])
  {
    seq(|lines|, i requires 0 <= i < |lines| => GrepHit(path, lines[i]))
  }

  predicate Fits(call: Call, scan: Scan) {
    |scan.hits| <= MAX_GREP_HITS_PER_CALL && scan.remaining <= call.budget
  }

  // One candidate file: a full page or a spent budget ends the call before it, a file no call
  // can scan is passed over, any other is scanned whole.
  function ScanOne(call: Call, scan: Scan, file: Hit): (r: Scan)
    requires Fits(call, scan)
    ensures Fits(call, r)
  {
    if |scan.hits| >= call.limit then scan.(next := scan.last, done := true)
    else if file.what.size > call.budget then scan.(last := Some(file.path))
    else if file.what.size > scan.remaining then scan.(next := scan.last, done := true)
    else
      scan.(remaining := scan.remaining - file.what.size,
            hits := scan.hits + FileHits(call, file, MAX_GREP_HITS_PER_CALL - |scan.hits|),
            last := Some(file.path))
  }

  // A call over its candidate files.
  function ScanAll(call: Call, scan: Scan, files: seq<Hit>): (r: Scan)
    requires Fits(call, scan)
    ensures Fits(call, r)
    decreases |files|
  {
    if scan.done || files == [] then scan else ScanAll(call, ScanOne(call, scan, files[0]), files[1..])
  }

  lemma {:induction false} ScanConcat(call: Call, scan: Scan, a: seq<Hit>, b: seq<Hit>)
    requires Fits(call, scan)
    ensures ScanAll(call, scan, a + b) == ScanAll(call, ScanAll(call, scan, a), b)
    decreases |a|
  {
    if a == [] {
      assert a + b == b;
    } else {
      assert (a + b)[1..] == a[1..] + b && (a + b)[0] == a[0];
      if !scan.done { ScanConcat(call, ScanOne(call, scan, a[0]), a[1..], b); }
    }
  }

  // How many candidates a call gets past.
  function Passed(call: Call, scan: Scan, files: seq<Hit>): (n: nat)
    requires Fits(call, scan)
    ensures n <= |files|
    decreases |files|
  {
    if scan.done || files == [] then 0
    else
      var after := ScanOne(call, scan, files[0]);
      if after.done then 0 else 1 + Passed(call, after, files[1..])
  }

  function Bytes(call: Call, files: seq<Hit>): nat {
    if files == [] then 0
    else (if files[0].what.size <= call.budget then files[0].what.size else 0) + Bytes(call, files[1..])
  }

  // A call that stops early stops in front of a candidate with the last one it got past as its
  // cursor; a call that does not stop gets past all of them. What it scans fits the budget.
  lemma {:induction false} ScanStops(call: Call, scan: Scan, files: seq<Hit>)
    requires Fits(call, scan) && !scan.done
    ensures var n, r := Passed(call, scan, files), ScanAll(call, scan, files);
      && (r.done <==> n < |files|)
      && (r.done ==> r.next == (if n == 0 then scan.last else Some(files[n - 1].path)))
      && (!r.done ==> r.next == scan.next)
      && r.remaining + Bytes(call, files[..n]) == scan.remaining
    decreases |files|
  {
    if files != [] {
      var after := ScanOne(call, scan, files[0]);
      if after.done {
        assert files[..0] == [];
        assert ScanAll(call, after, files[1..]) == after;
      } else {
        var n := Passed(call, after, files[1..]);
        ScanStops(call, after, files[1..]);
        assert files[..n + 1][0] == files[0] && files[..n + 1][1..] == files[1..][..n];
      }
    } else {
      assert files[..0] == [];
    }
  }

  // Every line of these files that holds the pattern, file by file and line by line; files larger than
  // the whole budget have none.
  function AllHits(call: Call, files: seq<Hit>): seq<GrepHit> {
    if files == [] then []
    else (if files[0].what.size <= call.budget then HitsAt(files[0].path, Matching(call, files[0].what.id)) else [])
         + AllHits(call, files[1..])
  }

  lemma CutTwice<T>(a: seq<T>, b: seq<T>, count: nat)
    ensures Front(Front(a, count) + b, count) == Front(a + b, count)
  {
  }

  lemma CutTheRest(hits: seq<GrepHit>, path: Text, lines: seq<nat>, count: nat)
    requires |hits| <= count
    ensures hits + HitsAt(path, Front(lines, count - |hits|)) == Front(hits + HitsAt(path, lines), count)
  {
  }

  // A call answers with all hits of the candidates it gets past, in their order, and is cut only at the
  // ceiling of a reply.
  lemma {:induction false} HitsAreExact(call: Call, scan: Scan, files: seq<Hit>)
    requires Fits(call, scan) && !scan.done
    ensures ScanAll(call, scan, files).hits
         == Front(scan.hits + AllHits(call, files[..Passed(call, scan, files)]), 4096)
    decreases |files|
  {
    hide Matching, FileHits;
    if files == [] {
      assert scan.hits + [] == scan.hits;
    } else {
      var after := ScanOne(call, scan, files[0]);
      if after.done {
        assert scan.hits + AllHits(call, files[..0]) == scan.hits;
        assert ScanAll(call, after, files[1..]) == after;
      } else {
        var n := Passed(call, after, files[1..]);
        HitsAreExact(call, after, files[1..]);
        assert files[..n + 1][0] == files[0] && files[..n + 1][1..] == files[1..][..n];
        OneFilesHits(call, scan, files[0], AllHits(call, files[1..][..n]));
      }
    }
  }

  // The `k`th candidate is gone past: there are fewer hits than the limit by then, and it is larger than
  // the whole budget or fits what is left of it.
  predicate GoesOn(call: Call, scan: Scan, files: seq<Hit>, k: nat)
    requires k < |files|
  {
    && |Front(scan.hits + AllHits(call, files[..k]), 4096)| < call.limit
    && (files[k].what.size > call.budget || Bytes(call, files[..k]) + files[k].what.size <= scan.remaining)
  }

  // A call stops exactly in front of the first candidate it does not go past.
  lemma {:induction false} StopsExactly(call: Call, scan: Scan, files: seq<Hit>)
    requires Fits(call, scan) && !scan.done
    ensures var n := Passed(call, scan, files);
      (forall k :: 0 <= k < n ==> GoesOn(call, scan, files, k)) && (n < |files| ==> !GoesOn(call, scan, files, n))
    decreases |files|
  {
    hide Matching, FileHits, Bytes, AllHits, Front;
    if files != [] {
      var after := ScanOne(call, scan, files[0]);
      GoesFirst(call, scan, files);
      if !after.done {
        var n := Passed(call, after, files[1..]);
        StopsExactly(call, after, files[1..]);
        forall k | 0 < k < |files|
          ensures GoesOn(call, scan, files, k) <==> GoesOn(call, after, files[1..], k - 1)
        {
          GoesNext(call, scan, files, k);
        }
      }
    }
  }

  lemma GoesFirst(call: Call, scan: Scan, files: seq<Hit>)
    requires Fits(call, scan) && !scan.done && files != []
    ensures GoesOn(call, scan, files, 0) <==> !ScanOne(call, scan, files[0]).done
  {
    hide Matching, FileHits;
    assert files[..0] == [] && scan.hits + [] == scan.hits;
    WithinCount(scan.hits, 4096);
  }

  lemma GoesNext(call: Call, scan: Scan, files: seq<Hit>, k: nat)
    requires Fits(call, scan) && !scan.done && 0 < k < |files| && !ScanOne(call, scan, files[0]).done
    ensures GoesOn(call, scan, files, k) <==> GoesOn(call, ScanOne(call, scan, files[0]), files[1..], k - 1)
  {
    hide Matching, FileHits, Front;
    var more := AllHits(call, files[1..][..k - 1]);
    assert files[..k][0] == files[0] && files[..k][1..] == files[1..][..k - 1];
    OneFilesHits(call, scan, files[0], more);
  }

  lemma OneFilesHits(call: Call, scan: Scan, file: Hit, more: seq<GrepHit>)
    requires Fits(call, scan) && !ScanOne(call, scan, file).done
    ensures var own := if file.what.size <= call.budget then HitsAt(file.path, Matching(call, file.what.id)) else [];
      Front(ScanOne(call, scan, file).hits + more, 4096) == Front(scan.hits + (own + more), 4096)
  {
    hide Matching, Front;
    var own := if file.what.size <= call.budget then HitsAt(file.path, Matching(call, file.what.id)) else [];
    Regroup(scan.hits, own, more);
    CutTwice(scan.hits + own, more, 4096);
    CutTheRest(scan.hits, file.path, Matching(call, file.what.id), 4096);
    WithinCount(scan.hits, 4096);
    assert scan.hits + [] == scan.hits;
  }

  lemma NotCut<T>(items: seq<T>, count: nat)
    ensures |Front(items, count)| < count ==> Front(items, count) == items
  {
  }

  lemma WithinCount<T>(items: seq<T>, count: nat)
    requires |items| <= count
    ensures Front(items, count) == items
  {
  }

  // A fresh call always gets past its first candidate.
  lemma FreshCallAdvances(call: Call, files: seq<Hit>)
    requires call.limit >= 1 && files != []
    ensures Passed(call, Fresh(call), files) >= 1
  {
  }

  // ---- the walk ------------------------------------------------------------------------------

  class Grep {
    const query: Query
    const call: Call
    var remaining: nat
    var hits: seq<GrepHit>
    var last: Option<Text>
    var next: Option<Text>
    var done: bool

    constructor (query: Query, call: Call)
      ensures this.query == query && this.call == call && State() == Fresh(call)
    {
      this.query, this.call := query, call;
      remaining, hits, last, next, done := call.budget, [], None, None, false;
    }

    function State(): Scan
      reads this
    {
      Scan(remaining, hits, last, next, done)
    }

    method WalkDir(dir: Listing, base: Text) returns (ok: bool)
      requires query.filesOnly && Sorted(dir) && Fits(call, State())
      modifies this
      ensures Fits(call, State())
      ensures ok ==> State() == ScanAll(call, old(State()), Matches(query, dir, base))
      ensures Healthy(dir) ==> ok
      decreases dir
    {
      hide ScanAll, ScanOne, Matches, Keep, WalkAll, Walk, Sorted, SortedAll, Healthy, HealthyAll, Join, Wanted,
        SubtreeMayMatch, SubtreeAfter, Rest;
      Unfold(query, dir, base);
      if done {
        ScanDone(call, State(), Matches(query, dir, base));
        return true;
      }
      if dir.Unreadable? {
        return false;
      }
      var entries := dir.children;
      var i := 0;
      NothingYet(query, entries, base);
      ScanNone(call, State());
      ghost var start := State();
      while i < |entries|
        invariant i <= |entries| && Fits(call, State())
        invariant State() == ScanAll(call, start, Keep(query, WalkAll(entries[..i], base)))
      {
        StepMatches(query, entries, i, base);
        ghost var before := Keep(query, WalkAll(entries[..i], base));
        if done {
          ScanConcat(call, start, before, Rest(query, entries, i, base));
          ScanDone(call, State(), Rest(query, entries, i, base));
          return true;
        }
        var entry := entries[i].entry;
        var child := Join(base, entries[i].name);
        UnfoldEntry(query, dir, i, base);
        WantedIs(query, Found(child, entry));
        ghost var own := if Wanted(query, Found(child, entry)) then [Found(child, entry)] else [];
        ghost var below := if entry.kind == Dir then Matches(query, entry.below, child) else [];
        ScanConcat(call, start, before, own + below);
        assert before + (own + below) == before + own + below;
        match entry.kind {
          case File =>
            if StartsWith(child, query.prefix) && PathAfter(child, query.after) {
              ok := ScanFile(child, entry);
              if !ok { return false; }
              assert own + below == own;
            } else {
              assert own + below == [];
              ScanNone(call, State());
            }
          case Symlink =>
            assert own + below == [];
            ScanNone(call, State());
          case Dir =>
            assert own + below == below;
            if SubtreeMayMatch(child, query.prefix) && SubtreeAfter(child, query.after) {
              ok := WalkDir(entry.below, child);
              if !ok { return false; }
            } else {
              PrunedHoldsNothing(query, entry.below, child);
              ScanNone(call, State());
            }
        }
        i := i + 1;
      }
      assert entries[..i] == entries;
      return true;
    }

    // Scans one candidate against the limit, the budget and the reply ceiling.
    method ScanFile(path: Text, entry: Entry) returns (ok: bool)
      requires !done && Fits(call, State())
      modifies this
      ensures Fits(call, State())
      ensures ok ==> State() == ScanAll(call, old(State()), [Found(path, entry)])
      ensures entry.readable ==> ok
    {
      ghost var file := Found(path, entry);
      assert [file][1..] == [];
      if |hits| >= call.limit {
        next, done := last, true;
        return true;
      }
      if entry.size > call.budget {
        last := Some(path);
        return true;
      }
      if entry.size > remaining {
        next, done := last, true;
        return true;
      }
      remaining := remaining - entry.size;
      if !entry.readable {
        return false;
      }
      TakeLines(path, LinesOf(call.bytes(entry.id)));
      last := Some(path);
      return true;
    }

    // The lines of one file, as far as the reply has room.
    method TakeLines(path: Text, lines: seq<Text>)
      requires |hits| <= MAX_GREP_HITS_PER_CALL
      modifies this`hits
      ensures var room := MAX_GREP_HITS_PER_CALL - |old(hits)|;
        hits == old(hits) + HitsAt(path, Front(MatchingUpTo(call.holds, lines, |lines|), room))
    {
      hide MatchingUpTo;
      MatchingNext(call.holds, lines, 0);
      var index := 0;
      while index < |lines|
        invariant index <= |lines| && |hits| <= MAX_GREP_HITS_PER_CALL
        invariant hits == old(hits) + HitsAt(path, MatchingUpTo(call.holds, lines, index))
      {
        MatchingNext(call.holds, lines, index + 1);
        MatchingGrows(call.holds, lines, index + 1, |lines|);
        if call.holds(lines[index]) {
          if |hits| >= MAX_GREP_HITS_PER_CALL {
            break;
          }
          OneHitMore(path, MatchingUpTo(call.holds, lines, index), index + 1);
          hits := hits + [GrepHit(path, index + 1)];
        }
        index := index + 1;
      }
      assert MatchingUpTo(call.holds, lines, index)
          == Front(MatchingUpTo(call.holds, lines, |lines|), MAX_GREP_HITS_PER_CALL - |old(hits)|);
    }
  }

  lemma MatchingNext(holds: Text -> bool, lines: seq<Text>, count: nat)
    requires count <= |lines|
    ensures MatchingUpTo(holds, lines, count)
         == if count == 0 then []
            else MatchingUpTo(holds, lines, count - 1) + if holds(lines[count - 1]) then [count] else []
  {
    if count > 0 { assert MatchingUpTo(holds, lines, count - 1) + [] == MatchingUpTo(holds, lines, count - 1); }
  }

  lemma OneHitMore(path: Text, lines: seq<nat>, line: nat)
    ensures HitsAt(path, lines + [line]) == HitsAt(path, lines) + [GrepHit(path, line)]
  {
  }

  lemma ScanDone(call: Call, scan: Scan, files: seq<Hit>)
    requires Fits(call, scan) && scan.done
    ensures ScanAll(call, scan, files) == scan
  {
  }

  lemma ScanNone(call: Call, scan: Scan)
    requires Fits(call, scan)
    ensures ScanAll(call, scan, []) == scan
  {
  }

  lemma WantedIs(q: Query, hit: Hit)
    requires q.filesOnly
    ensures Wanted(q, hit) == (hit.what.kind == File && StartsWith(hit.path, q.prefix) && PathAfter(hit.path, q.after))
  {
  }

  // ---- paging --------------------------------------------------------------------------------

  // One call over a resolved root tree: its final state, or None at an unreadable object.
  method GrepCall(root: Listing, prefix: Text, cursor: Option<Text>, call: Call) returns (reply: Option<Scan>)
    requires Sorted(root)
    ensures reply.Some? ==>
      reply.value == ScanAll(call, Fresh(call), Candidates(root, prefix, cursor))
      && |reply.value.hits| <= MAX_GREP_HITS_PER_CALL
    ensures Healthy(root) ==> reply.Some?
  {
    var grep := new Grep(Query(prefix, cursor, true), call);
    var ok := grep.WalkDir(root, []);
    return if ok then Some(grep.State()) else None;
  }

  // The files of the plain walk under the prefix and strictly after the cursor.
  function Candidates(root: Listing, prefix: Text, cursor: Option<Text>): seq<Hit> {
    Matches(Query(prefix, cursor, true), root, [])
  }

  // Resuming at the cursor of a call that stopped picks up at the file it stopped in front of.
  lemma GrepResumes(root: Listing, prefix: Text, cursor: Option<Text>, call: Call)
    requires Sorted(root) && call.limit >= 1
    requires ScanAll(call, Fresh(call), Candidates(root, prefix, cursor)).done
    ensures var files := Candidates(root, prefix, cursor);
      var next := ScanAll(call, Fresh(call), files).next;
      && next.Some? && PathAfter(next.value, cursor)
      && Passed(call, Fresh(call), files) >= 1
      && Candidates(root, prefix, next) == files[Passed(call, Fresh(call), files)..]
  {
    var q := Query(prefix, cursor, true);
    var files := Candidates(root, prefix, cursor);
    var n := Passed(call, Fresh(call), files);
    ScanStops(call, Fresh(call), files);
    FreshCallAdvances(call, files);
    WalkOrder(root, []);
    ResumeKeep(q, Walk(root, []), n - 1);
    KeepIsFrom(q, Walk(root, []), n - 1);
  }

  // The files each call gets past when a client follows every cursor.
  ghost function Calls(root: Listing, prefix: Text, cursor: Option<Text>, call: Call): seq<seq<Hit>>
    requires Sorted(root) && call.limit >= 1
    decreases |Candidates(root, prefix, cursor)|
  {
    var files := Candidates(root, prefix, cursor);
    var r := ScanAll(call, Fresh(call), files);
    var n := Passed(call, Fresh(call), files);
    if !r.done then [files[..n]]
    else
      GrepResumes(root, prefix, cursor, call);
      [files[..n]] + Calls(root, prefix, r.next, call)
  }

  // Following cursors gets past every candidate exactly once, in path order, and no call scans
  // more than its byte budget. (A file larger than the whole budget is passed, never scanned.)
  lemma {:induction false} GrepIsComplete(root: Listing, prefix: Text, cursor: Option<Text>, call: Call)
    requires Sorted(root) && call.limit >= 1
    ensures var calls := Calls(root, prefix, cursor, call);
      && Concat(calls) == Candidates(root, prefix, cursor)
      && forall i :: 0 <= i < |calls| ==> Bytes(call, calls[i]) <= call.budget
    decreases |Candidates(root, prefix, cursor)|
  {
    hide Candidates, ScanAll, Passed, Bytes, Calls, Sorted;
    var files := Candidates(root, prefix, cursor);
    var r := ScanAll(call, Fresh(call), files);
    var n := Passed(call, Fresh(call), files);
    ScanStops(call, Fresh(call), files);
    CallsUnfold(root, prefix, cursor, call);
    if r.done {
      GrepResumes(root, prefix, cursor, call);
      GrepIsComplete(root, prefix, r.next, call);
      var rest := Calls(root, prefix, r.next, call);
      assert ([files[..n]] + rest)[1..] == rest;
      assert files[..n] + files[n..] == files;
    } else {
      var none: seq<seq<Hit>> := [];
      assert files[..n] == files && [files] + none == [files] && [files][1..] == none && Concat(none) == []
          && files + [] == files;
    }
  }

  lemma CallsUnfold(root: Listing, prefix: Text, cursor: Option<Text>, call: Call)
    requires Sorted(root) && call.limit >= 1
    ensures var files := Candidates(root, prefix, cursor);
      var r := ScanAll(call, Fresh(call), files);
      var n := Passed(call, Fresh(call), files);
      Calls(root, prefix, cursor, call) == [files[..n]] + if r.done then Calls(root, prefix, r.next, call) else []
  {
    hide Candidates, ScanAll, Passed, Bytes, Sorted;
    var files := Candidates(root, prefix, cursor);
    var n := Passed(call, Fresh(call), files);
    if ScanAll(call, Fresh(call), files).done {
      GrepResumes(root, prefix, cursor, call);
    } else {
      var none: seq<seq<Hit>> := [];
      assert [files[..n]] + none == [files[..n]];
    }
  }

  // ---- what a client that follows every cursor is told ---------------------------------------

  // The hits of each call.
  ghost function Replies(root: Listing, prefix: Text, cursor: Option<Text>, call: Call): seq<seq<GrepHit>>
    requires Sorted(root) && call.limit >= 1
    decreases |Candidates(root, prefix, cursor)|
  {
    var r := ScanAll(call, Fresh(call), Candidates(root, prefix, cursor));
    if !r.done then [r.hits]
    else
      GrepResumes(root, prefix, cursor, call);
      [r.hits] + Replies(root, prefix, r.next, call)
  }

  function Joined(replies: seq<seq<GrepHit>>): seq<GrepHit> {
    if replies == [] then [] else replies[0] + Joined(replies[1..])
  }

  lemma {:induction false} AllHitsSplit(call: Call, a: seq<Hit>, b: seq<Hit>)
    ensures AllHits(call, a + b) == AllHits(call, a) + AllHits(call, b)
  {
    hide Matching;
    if a == [] {
      assert a + b == b;
    } else {
      assert (a + b)[0] == a[0] && (a + b)[1..] == a[1..] + b;
      AllHitsSplit(call, a[1..], b);
    }
  }

  lemma RepliesUnfold(root: Listing, prefix: Text, cursor: Option<Text>, call: Call)
    requires Sorted(root) && call.limit >= 1
    ensures var r := ScanAll(call, Fresh(call), Candidates(root, prefix, cursor));
      Replies(root, prefix, cursor, call) == [r.hits] + if r.done then Replies(root, prefix, r.next, call) else []
  {
    hide Candidates, ScanAll, Passed, Bytes, Sorted;
    var r := ScanAll(call, Fresh(call), Candidates(root, prefix, cursor));
    if r.done {
      GrepResumes(root, prefix, cursor, call);
    } else {
      var none: seq<seq<GrepHit>> := [];
      assert [r.hits] + none == [r.hits];
    }
  }

  lemma JoinedMore(hits: seq<GrepHit>, rest: seq<seq<GrepHit>>)
    ensures Joined([hits] + rest) == hits + Joined(rest) && Joined([]) == []
  {
    assert ([hits] + rest)[1..] == rest;
  }

  // Followed to the end, calls whose replies stay below the ceiling report together every line that
  // holds the pattern of every candidate a call can scan, once each and in order.
  lemma {:induction false} GrepReportsAll(root: Listing, prefix: Text, cursor: Option<Text>, call: Call)
    requires Sorted(root) && call.limit >= 1
    requires forall i :: 0 <= i < |Replies(root, prefix, cursor, call)| ==>
               |Replies(root, prefix, cursor, call)[i]| < 4096
    ensures Joined(Replies(root, prefix, cursor, call)) == AllHits(call, Candidates(root, prefix, cursor))
    decreases |Candidates(root, prefix, cursor)|
  {
    hide Candidates, ScanAll, Passed, Bytes, Replies, Sorted, AllHits, Front;
    var files := Candidates(root, prefix, cursor);
    var r := ScanAll(call, Fresh(call), files);
    var n := Passed(call, Fresh(call), files);
    ScanStops(call, Fresh(call), files);
    RepliesUnfold(root, prefix, cursor, call);
    HitsAreExact(call, Fresh(call), files);
    assert Replies(root, prefix, cursor, call)[0] == r.hits;
    assert [] + AllHits(call, files[..n]) == AllHits(call, files[..n]);
    NotCut(AllHits(call, files[..n]), 4096);
    hide Joined;
    if r.done {
      GrepResumes(root, prefix, cursor, call);
      var rest := Replies(root, prefix, r.next, call);
      JoinedMore(r.hits, rest);
      assert forall i :: 0 <= i < |rest| ==> rest[i] == Replies(root, prefix, cursor, call)[i + 1];
      GrepReportsAll(root, prefix, r.next, call);
      AllHitsSplit(call, files[..n], files[n..]);
      assert files[..n] + files[n..] == files;
    } else {
      JoinedMore(r.hits, []);
      assert files[..n] == files && r.hits + [] == r.hits;
    }
  }

  // Those are exactly the lines that hold the pattern, and none is there twice.
  lemma {:induction false} AllHitsAre(call: Call, files: seq<Hit>, hit: GrepHit)
    ensures hit in AllHits(call, files) <==>
      exists i :: 0 <= i < |files| && files[i].path == hit.path && files[i].what.size <= call.budget
        && IsMatch(call, files[i].what.id, hit.line)
  {
    hide Matching, IsMatch;
    if files != [] {
      AllHitsAre(call, files[1..], hit);
      OwnHits(call, files[0], hit);
      if hit in AllHits(call, files[1..]) {
        var i :| 0 <= i < |files[1..]| && files[1..][i].path == hit.path && files[1..][i].what.size <= call.budget
          && IsMatch(call, files[1..][i].what.id, hit.line);
        assert files[i + 1] == files[1..][i];
      }
      forall i | 0 < i < |files|
        ensures files[i] == files[1..][i - 1]
      {
      }
    }
  }

  // The `line`th line, counted from one, holds the pattern.
  predicate IsMatch(call: Call, id: Id, line: nat) {
    var lines := LinesOf(call.bytes(id));
    1 <= line <= |lines| && call.holds(lines[line - 1])
  }

  lemma OwnHits(call: Call, file: Hit, hit: GrepHit)
    ensures hit in HitsAt(file.path, Matching(call, file.what.id)) <==>
      file.path == hit.path && IsMatch(call, file.what.id, hit.line)
  {
    var lines := LinesOf(call.bytes(file.what.id));
    var found := Matching(call, file.what.id);
    MatchingIs(call.holds, lines, |lines|);
    assert hit.line in found <==> IsMatch(call, file.what.id, hit.line);
    if hit in HitsAt(file.path, found) {
      var i :| 0 <= i < |found| && HitsAt(file.path, found)[i] == hit;
      assert found[i] in found;
    }
    if file.path == hit.path && hit.line in found {
      var i :| 0 <= i < |found| && found[i] == hit.line;
      assert HitsAt(file.path, found)[i] == hit;
    }
  }

  lemma {:induction false} NoHitTwice(call: Call, files: seq<Hit>)
    requires forall i, j :: 0 <= i < j < |files| ==> files[i].path != files[j].path
    ensures forall i, j :: 0 <= i < j < |AllHits(call, files)| ==> AllHits(call, files)[i] != AllHits(call, files)[j]
  {
    hide Matching, IsMatch;
    if files != [] {
      NoHitTwice(call, files[1..]);
      var own := if files[0].what.size <= call.budget then HitsAt(files[0].path, Matching(call, files[0].what.id))
          else [];
      var rest, all := AllHits(call, files[1..]), AllHits(call, files);
      OwnDiffer(call, files[0]);
      forall i, j | 0 <= i < |own| && 0 <= j < |rest|
        ensures own[i] != rest[j]
      {
        AllHitsAre(call, files[1..], rest[j]);
        OwnHits(call, files[0], own[i]);
        assert own[i] in HitsAt(files[0].path, Matching(call, files[0].what.id));
        assert rest[j] in rest;
      }
      assert all == own + rest;
    }
  }

  lemma OwnDiffer(call: Call, file: Hit)
    ensures var own := HitsAt(file.path, Matching(call, file.what.id));
      forall i, j :: 0 <= i < j < |own| ==> own[i] != own[j]
  {
    var found := Matching(call, file.what.id);
    MatchingIs(call.holds, LinesOf(call.bytes(file.what.id)), |LinesOf(call.bytes(file.what.id))|);
    forall i, j | 0 <= i < j < |found|
      ensures HitsAt(file.path, found)[i] != HitsAt(file.path, found)[j]
    {
      assert found[i] < found[j];
    }
  }

  // So a line of a candidate is reported exactly once if it holds the pattern, and else not at all.
  lemma EachLineOnce(root: Listing, prefix: Text, cursor: Option<Text>, call: Call)
    requires Sorted(root)
    ensures var (files, hits) := (Candidates(root, prefix, cursor), AllHits(call, Candidates(root, prefix, cursor)));
      && (forall i, j :: 0 <= i < j < |hits| ==> hits[i] != hits[j])
      && forall hit :: hit in hits <==>
           exists i :: 0 <= i < |files| && files[i].path == hit.path && files[i].what.size <= call.budget
             && IsMatch(call, files[i].what.id, hit.line)
  {
    hide AllHits, IsMatch, Matching, Walk, Sorted, Keep;
    var files := Candidates(root, prefix, cursor);
    WalkOrder(root, []);
    KeepInOrder(Query(prefix, cursor, true), Walk(root, []));
    OrderedDiffer(files);
    NoHitTwice(call, files);
    forall hit
      ensures hit in AllHits(call, files) <==>
        exists i :: 0 <= i < |files| && files[i].path == hit.path && files[i].what.size <= call.budget
          && IsMatch(call, files[i].what.id, hit.line)
    {
      AllHitsAre(call, files, hit);
    }
  }

  lemma {:induction false} KeepInOrder(q: Query, hits: seq<Hit>)
    requires InOrder(hits)
    ensures InOrder(Keep(q, hits))
  {
    hide PathBelow, Wanted, Split;
    if hits != [] {
      TailInOrder(hits);
      KeepInOrder(q, hits[1..]);
      var rest := Keep(q, hits[1..]);
      forall j | 0 <= j < |rest|
        ensures PathBelow(Split(hits[0].path), Split(rest[j].path))
      {
        KeepIsFrom(q, hits[1..], j);
      }
    }
  }

  lemma OrderedDiffer(hits: seq<Hit>)
    requires InOrder(hits)
    ensures forall i, j :: 0 <= i < j < |hits| ==> hits[i].path != hits[j].path
  {
    hide PathBelow, Split;
    forall i, j | 0 <= i < j < |hits|
      ensures hits[i].path != hits[j].path
    {
      PathBelowTotal(Split(hits[i].path), Split(hits[j].path));
    }
  }
}
