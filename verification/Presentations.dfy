// Editor ranges (crates/view-wire/src/editor_presentation.rs:330-380): styled spans and clickable
// hits, checked in one forward pass over the document's lines.
module Presentations {
  import opened Wrappers
  import opened Texts

  datatype Range = Range(line: nat, start: nat, end: nat)

  // On a line there is, the right way round, on character boundaries of it.
  predicate Sits(lines: seq<Text>, r: Range) {
    r.line < |lines| && r.start <= r.end && CharBoundary(lines[r.line], r.start) && CharBoundary(lines[r.line], r.end)
  }

  // Later in the document, and past the end of the one before where they share a line.
  predicate Follows(before: Range, r: Range) {
    before.line < r.line || (before.line == r.line && before.end <= r.start)
  }

  // What makes a stream acceptable, on its own.
  predicate ValidStream(lines: seq<Text>, stream: seq<Range>) {
    && (forall i :: 0 <= i < |stream| ==> Sits(lines, stream[i]))
    && (forall i :: 0 < i < |stream| ==> Follows(stream[i - 1], stream[i]))
  }

  // So the ranges of a stream never overlap, not only neighbours: each range lies wholly before every
  // later one.
  lemma ValidExactly(lines: seq<Text>, stream: seq<Range>)
    ensures ValidStream(lines, stream) <==>
      && (forall i :: 0 <= i < |stream| ==>
            && stream[i].line < |lines| && stream[i].start <= stream[i].end
            && CharBoundary(lines[stream[i].line], stream[i].start)
            && CharBoundary(lines[stream[i].line], stream[i].end))
      && (forall i, j :: 0 <= i < j < |stream| ==>
            || stream[i].line < stream[j].line
            || (stream[i].line == stream[j].line && stream[i].end <= stream[j].start))
  {
    hide CharBoundary;
    if ValidStream(lines, stream) {
      forall i, j | 0 <= i < j < |stream|
        ensures stream[i].line < stream[j].line
            || (stream[i].line == stream[j].line && stream[i].end <= stream[j].start)
      {
        FollowsAll(lines, stream, i, j);
      }
    }
  }

  lemma {:induction false} FollowsAll(lines: seq<Text>, stream: seq<Range>, i: nat, j: nat)
    requires ValidStream(lines, stream) && i < j < |stream|
    ensures Follows(stream[i], stream[j])
    decreases j
  {
    hide CharBoundary;
    if i < j - 1 { FollowsAll(lines, stream, i, j - 1); }
    assert Sits(lines, stream[j - 1]) && Follows(stream[j - 1], stream[j]);
  }

  // How many lines the ranges of two streams reach into.
  function Reach(spans: seq<Range>, hits: seq<Range>): nat {
    var a := if spans == [] then 0 else spans[|spans| - 1].line + 1;
    var b := if hits == [] then 0 else hits[|hits| - 1].line + 1;
    if a < b then b else a
  }

  // The next of a stream is not above what the other stream has already reached, unless its own
  // order is broken.
  predicate NotBehind(other: seq<Range>, done: nat, stream: seq<Range>, next: nat)
    requires done <= |other| && next <= |stream|
  {
    done > 0 && next < |stream| ==>
      other[done - 1].line <= stream[next].line || (next > 0 && stream[next].line < stream[next - 1].line)
  }

  predicate Merging(lines: seq<Text>, spans: seq<Range>, hits: seq<Range>, si: nat, hi: nat, taken: nat) {
    && si <= |spans| && hi <= |hits| && taken <= |lines|
    && ValidStream(lines, spans[..si]) && ValidStream(lines, hits[..hi])
    && taken == Reach(spans[..si], hits[..hi])
    && NotBehind(hits, hi, spans, si) && NotBehind(spans, si, hits, hi)
  }

  lemma ValidGrows(lines: seq<Text>, stream: seq<Range>, next: nat)
    requires next < |stream| && ValidStream(lines, stream[..next])
    ensures ValidStream(lines, stream[..next + 1]) <==>
        Sits(lines, stream[next]) && (next > 0 ==> Follows(stream[next - 1], stream[next]))
  {
    hide Sits, Follows;
    var front, more := stream[..next], stream[..next + 1];
    assert more[next] == stream[next];
    assert forall i :: 0 <= i < next ==> more[i] == front[i];
  }

  lemma {:induction false} ValidPrefix(lines: seq<Text>, stream: seq<Range>, n: nat)
    requires n <= |stream| && ValidStream(lines, stream)
    ensures ValidStream(lines, stream[..n])
  {
    hide Sits, Follows;
    assert forall i :: 0 <= i < n ==> stream[..n][i] == stream[i];
  }

  // Taking the next range of one stream, once it has passed its checks.
  lemma SpanMerges(lines: seq<Text>, spans: seq<Range>, hits: seq<Range>, si: nat, hi: nat, taken: nat)
    requires Merging(lines, spans, hits, si, hi, taken) && si < |spans|
    requires hi < |hits| ==> spans[si].line <= hits[hi].line
    requires Sits(lines, spans[si]) && (si > 0 ==> Follows(spans[si - 1], spans[si]))
    ensures taken <= spans[si].line + 1
    ensures Merging(lines, spans, hits, si + 1, hi, spans[si].line + 1)
  {
    ValidGrows(lines, spans, si);
    hide ValidStream, CharBoundary;
  }

  lemma HitMerges(lines: seq<Text>, spans: seq<Range>, hits: seq<Range>, si: nat, hi: nat, taken: nat)
    requires Merging(lines, spans, hits, si, hi, taken) && hi < |hits|
    requires si < |spans| ==> hits[hi].line < spans[si].line
    requires Sits(lines, hits[hi]) && (hi > 0 ==> Follows(hits[hi - 1], hits[hi]))
    ensures taken <= hits[hi].line + 1
    ensures Merging(lines, spans, hits, si, hi + 1, hits[hi].line + 1)
  {
    ValidGrows(lines, hits, hi);
    hide ValidStream, CharBoundary;
  }

  // A range in its place is never on a line the scan has already left.
  lemma NotPassed(lines: seq<Text>, spans: seq<Range>, hits: seq<Range>, si: nat, hi: nat, taken: nat)
    requires Merging(lines, spans, hits, si, hi, taken)
    ensures si < |spans| && (si > 0 ==> Follows(spans[si - 1], spans[si])) ==> taken <= spans[si].line + 1
    ensures hi < |hits| && (hi > 0 ==> Follows(hits[hi - 1], hits[hi])) ==> taken <= hits[hi].line + 1
    ensures ValidStream(lines, spans[..si]) && ValidStream(lines, hits[..hi])
  {
    hide ValidStream;
  }

  lemma MergingStarts(lines: seq<Text>, spans: seq<Range>, hits: seq<Range>)
    ensures Merging(lines, spans, hits, 0, 0, 0)
  {
  }

  lemma MergingEnds(lines: seq<Text>, spans: seq<Range>, hits: seq<Range>, taken: nat)
    requires Merging(lines, spans, hits, |spans|, |hits|, taken)
    ensures ValidStream(lines, spans) && ValidStream(lines, hits) && taken == Reach(spans, hits)
  {
    assert spans[..|spans|] == spans && hits[..|hits|] == hits;
  }

  // One merged pass accepts exactly if each stream on its own is valid, and counts the document's
  // lines where it is asked to.
  method ValidateRanges(lines: seq<Text>, spans: seq<Range>, hits: seq<Range>, countLines: bool)
    returns (r: Option<nat>)
    ensures r.Some? <==> ValidStream(lines, spans) && ValidStream(lines, hits)
    ensures r.Some? ==> r.value == if countLines then |lines| else Reach(spans, hits)
  {
    hide ValidStream, Merging, CharBoundary, Reach;
    // `taken` lines have been drawn from the iterator; the last of them is the current one.
    var taken := 0;
    var si, hi := 0, 0;
    var previousSpan, previousHit: Option<Range> := None, None;
    MergingStarts(lines, spans, hits);
    while si < |spans| || hi < |hits|
      invariant Merging(lines, spans, hits, si, hi, taken) && si <= |spans| && hi <= |hits| && taken <= |lines|
      invariant previousSpan == if si == 0 then None else Some(spans[si - 1])
      invariant previousHit == if hi == 0 then None else Some(hits[hi - 1])
      decreases |spans| - si + |hits| - hi
    {
      var span := if si < |spans| && hi < |hits| then hits[hi].line >= spans[si].line else si < |spans|;
      var range := if span then spans[si] else hits[hi];
      var previous := if span then previousSpan else previousHit;
      NotPassed(lines, spans, hits, si, hi, taken);
      if span { ValidGrows(lines, spans, si); } else { ValidGrows(lines, hits, hi); }
      if ValidStream(lines, spans) { ValidPrefix(lines, spans, if span then si + 1 else si); }
      if ValidStream(lines, hits) { ValidPrefix(lines, hits, if span then hi else hi + 1); }
      if range.start > range.end {
        assert !Sits(lines, range);
        return None;
      }
      if previous.Some? && (range.line < previous.value.line
          || (range.line == previous.value.line && range.start < previous.value.end)) {
        assert !Follows(previous.value, range);
        return None;
      }
      assert previous.Some? ==> Follows(previous.value, range);
      var before := taken;
      while taken < |lines| && (taken == 0 || taken - 1 < range.line)
        invariant before <= taken <= |lines| && (taken > before ==> taken - 1 <= range.line)
      {
        taken := taken + 1;
      }
      if taken == 0 || taken - 1 != range.line || !CharBoundary(lines[taken - 1], range.start)
          || !CharBoundary(lines[taken - 1], range.end) {
        assert !Sits(lines, range);
        return None;
      }
      assert Sits(lines, range);
      if span {
        SpanMerges(lines, spans, hits, si, hi, before);
        previousSpan := Some(range);
        si := si + 1;
      } else {
        HitMerges(lines, spans, hits, si, hi, before);
        previousHit := Some(range);
        hi := hi + 1;
      }
    }
    MergingEnds(lines, spans, hits, taken);
    r := Some(if countLines then taken + (|lines| - taken) else taken);
  }
}
