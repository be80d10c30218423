// Atomic editor patches (crates/view-wire/src/editor_transaction.rs:22-79) and the changed span
// between two documents (crates/view-wire/src/editor_document.rs:60-120).
module EditorPatches {
  import opened Wrappers
  import opened Texts
  import opened EditorLines

  const MAX_EDITOR_DOCUMENT_BYTES: nat := 1_048_576
  const MAX_EDITOR_PATCHES: nat := 256
  const BLOCK: nat := 64

  datatype EditorPatch = EditorPatch(start: nat, end: nat, replacement: Text)

  datatype PatchError = Limit | Range | CursorError

  // Where native Content can select: a character boundary, not inside a two-byte terminator, a
  // grapheme boundary.
  predicate Native(g: Graphemes, t: Text, at: nat) {
    && CharBoundary(t, at)
    && !(0 < at < |t| && ((t[at - 1] == CR && t[at] == LF) || (t[at - 1] == LF && t[at] == CR)))
    && g(t, at)
  }

  // Between the bytes of a carriage return and a line feed, in either order, no one can select.
  lemma NativeExactly(g: Graphemes, t: Text, at: nat)
    ensures Native(g, t, at) <==>
      && g(t, at) && (at == 0 || at == |t| || (at < |t| && !(0x80 <= t[at] < 0xC0)))
      && (0 < at < |t| ==> t[at - 1..at + 1] != [13, 10] && t[at - 1..at + 1] != [10, 13])
  {
    if 0 < at < |t| { assert t[at - 1..at + 1] == [t[at - 1], t[at]]; }
  }

  // ---- patching ------------------------------------------------------------------------------------

  function Splice(t: Text, p: EditorPatch): Text
    requires p.start <= p.end <= |t|
  {
    t[..p.start] + p.replacement + t[p.end..]
  }

  // Ordered, disjoint, and from `after` on.
  predicate Ordered(patches: seq<EditorPatch>, after: nat, len: nat) {
    patches == [] || (after <= patches[0].start <= patches[0].end <= len && Ordered(patches[1..], patches[0].end, len))
  }

  function Removed(patches: seq<EditorPatch>): int {
    if patches == [] then 0 else patches[0].end - patches[0].start + Removed(patches[1..])
  }

  function Inserted(patches: seq<EditorPatch>): nat {
    if patches == [] then 0 else |patches[0].replacement| + Inserted(patches[1..])
  }

  // The patches applied one at a time, the last one first: no splice moves what an earlier patch
  // refers to.
  function LastToFirst(t: Text, patches: seq<EditorPatch>, after: nat): Text
    requires Ordered(patches, after, |t|)
    decreases |patches|, 0
  {
    if patches == [] then t
    else
      var rest := LastToFirst(t, patches[1..], patches[0].end);
      RestKeepsFront(t, patches[1..], patches[0].end);
      Splice(rest, patches[0])
  }

  // Splices further on leave the front alone.
  lemma {:induction false} RestKeepsFront(t: Text, patches: seq<EditorPatch>, after: nat)
    requires Ordered(patches, after, |t|) && after <= |t|
    ensures var r := LastToFirst(t, patches, after); |r| >= after && r[..after] == t[..after]
    ensures |LastToFirst(t, patches, after)| == |t| - Removed(patches) + Inserted(patches)
    decreases |patches|, 1
  {
    if patches != [] {
      RestKeepsFront(t, patches[1..], patches[0].end);
      var rest := LastToFirst(t, patches[1..], patches[0].end);
      assert rest[..patches[0].end][..after] == rest[..after];
      assert t[..patches[0].end][..after] == t[..after];
    }
  }

  predicate Selectable(g: Graphemes, t: Text, patches: seq<EditorPatch>) {
    forall i :: 0 <= i < |patches| ==> Native(g, t, patches[i].start) && Native(g, t, patches[i].end)
  }

  // A batch is accepted exactly if it is within the limits, ordered and disjoint, on boundaries,
  // and its cursor can stand in the text it makes.
  predicate Acceptable(g: Graphemes, t: Text, patches: seq<EditorPatch>, cursor: Cursor) {
    && |t| <= MAX_EDITOR_DOCUMENT_BYTES && |patches| <= MAX_EDITOR_PATCHES
    && Ordered(patches, 0, |t|) && Selectable(g, t, patches)
    && Inserted(patches) <= MAX_EDITOR_DOCUMENT_BYTES
    && |t| - Removed(patches) + Inserted(patches) <= MAX_EDITOR_DOCUMENT_BYTES
    && PlacedCursor(g, LastToFirst(t, patches, 0), cursor)
  }

  // Appending patch by patch from the front gives the same text: what is already written, and what
  // the remaining patches make of the remaining text.
  function Tail(t: Text, patches: seq<EditorPatch>, offset: nat): Text
    requires Ordered(patches, offset, |t|) && offset <= |t|
  {
    RestKeepsFront(t, patches, offset);
    LastToFirst(t, patches, offset)[offset..]
  }

  lemma TailNext(t: Text, patches: seq<EditorPatch>, offset: nat)
    requires patches != [] && Ordered(patches, offset, |t|) && offset <= |t|
    ensures Tail(t, patches, offset) == (t[offset..patches[0].start] + patches[0].replacement)
        + Tail(t, patches[1..], patches[0].end)
  {
    var p, rest := patches[0], LastToFirst(t, patches[1..], patches[0].end);
    RestKeepsFront(t, patches[1..], p.end);
    assert rest[..p.start] == rest[..p.end][..p.start] == t[..p.end][..p.start] == t[..p.start];
    assert Splice(rest, p)[offset..] == (t[offset..p.start] + p.replacement) + rest[p.end..];
  }

  // Which check a scan from this patch on trips over first; None where it trips over nothing.
  function ScanFault(g: Graphemes, t: Text, patches: seq<EditorPatch>, previousEnd: nat,
          inserted: nat): (fault: Option<PatchError>)
    ensures fault != Some(CursorError)
  {
    if patches == [] then None
    else
      var p := patches[0];
      if p.start < previousEnd || p.start > p.end || p.end > |t| then Some(Range)
      else if !Native(g, t, p.start) || !Native(g, t, p.end) then Some(Range)
      else if inserted + |p.replacement| > MAX_EDITOR_DOCUMENT_BYTES then Some(Limit)
      else ScanFault(g, t, patches[1..], p.end, inserted + |p.replacement|)
  }

  // The scan passes exactly the ordered, selectable batches within the insertion limit.
  lemma {:induction false} ScanIsExact(g: Graphemes, t: Text, patches: seq<EditorPatch>, previousEnd: nat,
          inserted: nat)
    requires inserted <= MAX_EDITOR_DOCUMENT_BYTES
    ensures ScanFault(g, t, patches, previousEnd, inserted) == None <==>
              Ordered(patches, previousEnd, |t|) && Selectable(g, t, patches)
                  && inserted + Inserted(patches) <= MAX_EDITOR_DOCUMENT_BYTES
  {
    hide Native;
    if patches != [] {
      var p := patches[0];
      if p.start >= previousEnd && p.start <= p.end <= |t| && Native(g, t, p.start) && Native(g, t, p.end)
         && inserted + |p.replacement| <= MAX_EDITOR_DOCUMENT_BYTES {
        ScanIsExact(g, t, patches[1..], p.end, inserted + |p.replacement|);
        assert Selectable(g, t, patches) <==> Selectable(g, t, patches[1..]) by {
          assert forall i :: 0 < i < |patches| ==> patches[i] == patches[1..][i - 1];
        }
      } else if Selectable(g, t, patches) {
        assert Native(g, t, p.start) && Native(g, t, p.end);
      }
    }
  }

  method PatchedEditorText(g: Graphemes, t: Text, patches: seq<EditorPatch>, cursor: Cursor)
    returns (r: Result<Text, PatchError>)
    requires EndsAreBoundaries(g)
    ensures r.Ok? <==> Acceptable(g, t, patches, cursor)
    ensures r.Ok? ==> r.value == LastToFirst(t, patches, 0) && |r.value| == |t| - Removed(patches) + Inserted(patches)
    ensures r == Err(CursorError) <==>
      && |t| <= MAX_EDITOR_DOCUMENT_BYTES && |patches| <= MAX_EDITOR_PATCHES && ScanFault(g, t, patches, 0, 0) == None
      && |t| - Removed(patches) + Inserted(patches) <= MAX_EDITOR_DOCUMENT_BYTES && !Acceptable(g, t, patches, cursor)
    ensures r == Err(Range) <==>
      |t| <= MAX_EDITOR_DOCUMENT_BYTES && |patches| <= MAX_EDITOR_PATCHES
          && ScanFault(g, t, patches, 0, 0) == Some(Range)
  {
    hide Native, PlacedCursor, Clamp;
    ScanIsExact(g, t, patches, 0, 0);
    if |t| > MAX_EDITOR_DOCUMENT_BYTES || |patches| > MAX_EDITOR_PATCHES {
      return Err(Limit);
    }
    var scanned := ScanAll(g, t, patches);
    if scanned.Err? {
      return Err(scanned.error);
    }
    RestKeepsFront(t, patches, 0);
    if |t| - scanned.value.0 + scanned.value.1 > MAX_EDITOR_DOCUMENT_BYTES {
      return Err(Limit);
    }
    var text := Rebuild(t, patches);
    ClampFixesPlaced(g, text, cursor);
    if Clamp(g, text, cursor) != cursor {
      return Err(CursorError);
    }
    r := Ok(text);
  }

  // The first loop: order, boundaries, and the bytes removed and inserted.
  method ScanAll(g: Graphemes, t: Text, patches: seq<EditorPatch>) returns (r: Result<(int, nat), PatchError>)
    ensures match ScanFault(g, t, patches, 0, 0)
      case Some(e) => r == Err(e)
      case None => r == Ok((Removed(patches), Inserted(patches)))
  {
    hide Native;
    var previousEnd, inserted: nat, removed: int, index := 0, 0, 0, 0;
    while index < |patches|
      invariant index <= |patches|
      invariant ScanFault(g, t, patches, 0, 0) == ScanFault(g, t, patches[index..], previousEnd, inserted)
      invariant removed + Removed(patches[index..]) == Removed(patches)
      invariant inserted + Inserted(patches[index..]) == Inserted(patches)
    {
      var p := patches[index];
      assert patches[index..][0] == p && patches[index..][1..] == patches[index + 1..];
      if p.start < previousEnd || p.start > p.end || p.end > |t| {
        return Err(Range);
      }
      if !Native(g, t, p.start) || !Native(g, t, p.end) {
        return Err(Range);
      }
      previousEnd := p.end;
      removed := removed + (p.end - p.start);
      inserted := inserted + |p.replacement|;
      if inserted > MAX_EDITOR_DOCUMENT_BYTES {
        return Err(Limit);
      }
      index := index + 1;
    }
    assert patches[index..] == [];
    r := Ok((removed, inserted));
  }

  // The second loop: the kept pieces and the replacements, front to back.
  method Rebuild(t: Text, patches: seq<EditorPatch>) returns (result: Text)
    requires Ordered(patches, 0, |t|)
    ensures result == LastToFirst(t, patches, 0)
  {
    WholeIsTail(t, patches);
    hide LastToFirst;
    result := [];
    var offset: nat, index := 0, 0;
    assert patches[0..] == patches;
    while index < |patches|
      invariant index <= |patches| && offset <= |t| && Ordered(patches[index..], offset, |t|)
      invariant result + Tail(t, patches[index..], offset) == LastToFirst(t, patches, 0)
    {
      var p := patches[index];
      assert patches[index..][0] == p && patches[index..][1..] == patches[index + 1..];
      TailNext(t, patches[index..], offset);
      Regroup(result, t[offset..p.start] + p.replacement, Tail(t, patches[index + 1..], p.end));
      Regroup(result, t[offset..p.start], p.replacement);
      result := result + t[offset..p.start];
      result := result + p.replacement;
      offset := p.end;
      index := index + 1;
    }
    assert patches[index..] == [];
    NothingLeft(t, offset);
    result := result + t[offset..];
  }

  lemma NothingLeft(t: Text, offset: nat)
    requires offset <= |t|
    ensures Tail(t, [], offset) == t[offset..]
  {
  }

  lemma WholeIsTail(t: Text, patches: seq<EditorPatch>)
    requires Ordered(patches, 0, |t|)
    ensures [] + Tail(t, patches, 0) == LastToFirst(t, patches, 0)
  {
  }

  // ---- the changed span ----------------------------------------------------------------------------

  // A place up to which two texts agree and both can be cut.
  predicate SharedStart(g: Graphemes, before: Text, after: Text, at: nat) {
    at <= |before| && at <= |after| && before[..at] == after[..at] && Native(g, before, at) && Native(g, after, at)
  }

  predicate SharedSuffix(g: Graphemes, before: Text, after: Text, start: nat, n: nat) {
    && start + n <= |before| && start + n <= |after|
    && before[|before| - n..] == after[|after| - n..]
    && Native(g, before, |before| - n) && Native(g, after, |after| - n)
  }

  // The smallest span: it starts as late as both texts allow and leaves as much of the end as the
  // start allows.
  predicate SmallestSpan(g: Graphemes, before: Text, after: Text, p: EditorPatch) {
    var n := |before| - p.end;
    && p.end <= |before|
    && SharedStart(g, before, after, p.start)
      && (forall at :: p.start < at <= |before| ==> !SharedStart(g, before, after, at))
    && SharedSuffix(g, before, after, p.start, n)
      && (forall m :: n < m <= |before| ==> !SharedSuffix(g, before, after, p.start, m))
    && p.replacement == after[p.start..|after| - n]
  }

  // How far two texts agree from the front: 64 bytes at a time, then byte by byte.
  method CommonPrefix(before: Text, after: Text) returns (at: nat)
    ensures at <= |before| && at <= |after| && before[..at] == after[..at]
    ensures at == |before| || at == |after| || before[at] != after[at]
  {
    var limit := if |before| < |after| then |before| else |after|;
    at := 0;
    while at + BLOCK <= limit && before[at..at + BLOCK] == after[at..at + BLOCK]
      invariant at <= limit && before[..at] == after[..at]
    {
      assert before[..at + BLOCK] == before[..at] + before[at..at + BLOCK];
      assert after[..at + BLOCK] == after[..at] + after[at..at + BLOCK];
      at := at + BLOCK;
    }
    while at < limit && before[at] == after[at]
      invariant at <= limit && before[..at] == after[..at]
    {
      assert before[..at + 1] == before[..at] + [before[at]];
      assert after[..at + 1] == after[..at] + [after[at]];
      at := at + 1;
    }
  }

  // The same from the end, within a limit.
  method CommonSuffix(before: Text, after: Text, limit: nat) returns (n: nat)
    requires limit <= |before| && limit <= |after|
    ensures n <= limit && before[|before| - n..] == after[|after| - n..]
    ensures n == limit || before[|before| - n - 1] != after[|after| - n - 1]
  {
    n := 0;
    while n + BLOCK <= limit && before[|before| - n - BLOCK..|before| - n] == after[|after| - n - BLOCK..|after| - n]
      invariant n <= limit && before[|before| - n..] == after[|after| - n..]
    {
      assert before[|before| - n - BLOCK..] == before[|before| - n - BLOCK..|before| - n] + before[|before| - n..];
      assert after[|after| - n - BLOCK..] == after[|after| - n - BLOCK..|after| - n] + after[|after| - n..];
      n := n + BLOCK;
    }
    while n < limit && before[|before| - n - 1] == after[|after| - n - 1]
      invariant n <= limit && before[|before| - n..] == after[|after| - n..]
    {
      assert before[|before| - n - 1..] == [before[|before| - n - 1]] + before[|before| - n..];
      assert after[|after| - n - 1..] == [after[|after| - n - 1]] + after[|after| - n..];
      n := n + 1;
    }
  }

  lemma DifferFrom(a: Text, b: Text, i: nat, at: nat)
    requires i < at <= |a| && at <= |b| && a[i] != b[i]
    ensures a[..at] != b[..at]
  {
    assert a[..at][i] == a[i] && b[..at][i] == b[i];
  }

  lemma DifferAfter(a: Text, b: Text, n: nat, m: nat)
    requires n < m <= |a| && m <= |b| && a[|a| - n - 1] != b[|b| - n - 1]
    ensures a[|a| - m..] != b[|b| - m..]
  {
    assert a[|a| - m..][m - n - 1] == a[|a| - n - 1] && b[|b| - m..][m - n - 1] == b[|b| - n - 1];
  }

  lemma EndsAreNative(g: Graphemes, t: Text)
    requires EndsAreBoundaries(g)
    ensures Native(g, t, 0) && Native(g, t, |t|)
  {
  }

  method ChangedSpan(g: Graphemes, before: Text, after: Text) returns (r: Result<seq<EditorPatch>, PatchError>)
    requires EndsAreBoundaries(g)
    ensures r.Err? <==> |before| > MAX_EDITOR_DOCUMENT_BYTES || |after| > MAX_EDITOR_DOCUMENT_BYTES
    ensures r.Ok? && before == after ==> r.value == []
    ensures r.Ok? && before != after ==> |r.value| == 1 && SmallestSpan(g, before, after, r.value[0])
  {
    hide Native;
    if |before| > MAX_EDITOR_DOCUMENT_BYTES || |after| > MAX_EDITOR_DOCUMENT_BYTES {
      return Err(Limit);
    }
    if before == after {
      return Ok([]);
    }
    EndsAreNative(g, before);
    EndsAreNative(g, after);
    var start := BackToStart(g, before, after);
    var limit := (if |before| < |after| then |before| else |after|) - start;
    var suffix := BackToSuffix(g, before, after, start, limit);
    r := Ok([EditorPatch(start, |before| - suffix, after[start..|after| - suffix])]);
  }

  method BackToStart(g: Graphemes, before: Text, after: Text) returns (start: nat)
    requires Native(g, before, 0) && Native(g, after, 0)
    ensures SharedStart(g, before, after, start)
    ensures forall at :: start < at <= |before| ==> !SharedStart(g, before, after, at)
  {
    hide Native;
    start := CommonPrefix(before, after);
    forall at | start < at <= |before|
      ensures !SharedStart(g, before, after, at)
    {
      if at <= |after| { DifferFrom(before, after, start, at); }
    }
    while !Native(g, before, start) || !Native(g, after, start)
      invariant start <= |before| && start <= |after| && before[..start] == after[..start]
      invariant forall at :: start < at <= |before| ==> !SharedStart(g, before, after, at)
      decreases start
    {
      assert before[..start - 1] == before[..start][..start - 1];
      assert after[..start - 1] == after[..start][..start - 1];
      start := start - 1;
    }
  }

  method BackToSuffix(g: Graphemes, before: Text, after: Text, start: nat, limit: nat) returns (n: nat)
    requires start <= |before| && start <= |after|
        && limit == (if |before| < |after| then |before| else |after|) - start
    requires Native(g, before, |before|) && Native(g, after, |after|)
    ensures SharedSuffix(g, before, after, start, n)
    ensures forall m :: n < m <= |before| ==> !SharedSuffix(g, before, after, start, m)
  {
    hide Native;
    n := CommonSuffix(before, after, limit);
    NoneBeyondTheAgreed(g, before, after, start, limit, n);
    while !Native(g, before, |before| - n) || !Native(g, after, |after| - n)
      invariant n <= limit && before[|before| - n..] == after[|after| - n..]
      invariant forall m :: n < m <= |before| ==> !SharedSuffix(g, before, after, start, m)
      decreases n
    {
      ShorterEnds(before, after, n);
      n := n - 1;
    }
  }

  lemma NoneBeyondTheAgreed(g: Graphemes, before: Text, after: Text, start: nat, limit: nat, n: nat)
    requires start <= |before| && start <= |after|
        && limit == (if |before| < |after| then |before| else |after|) - start
    requires n <= limit && (n == limit || before[|before| - n - 1] != after[|after| - n - 1])
    ensures forall m :: n < m <= |before| ==> !SharedSuffix(g, before, after, start, m)
  {
    hide Native;
    forall m | n < m <= |before|
      ensures !SharedSuffix(g, before, after, start, m)
    {
      if m <= limit { DifferAfter(before, after, n, m); }
    }
  }

  lemma ShorterEnds(a: Text, b: Text, n: nat)
    requires 0 < n <= |a| && n <= |b| && a[|a| - n..] == b[|b| - n..]
    ensures a[|a| - (n - 1)..] == b[|b| - (n - 1)..]
  {
    assert a[|a| - (n - 1)..] == a[|a| - n..][1..];
    assert b[|b| - (n - 1)..] == b[|b| - n..][1..];
  }

  // ---- there and back ------------------------------------------------------------------------------

  // Patching one document with the span between it and another gives the other, for every pair in
  // the limits and every cursor that can stand in the result.
  lemma SpanPatchesBack(g: Graphemes, before: Text, after: Text, p: EditorPatch, cursor: Cursor)
    requires |before| <= MAX_EDITOR_DOCUMENT_BYTES && |after| <= MAX_EDITOR_DOCUMENT_BYTES
    requires SmallestSpan(g, before, after, p) && PlacedCursor(g, after, cursor)
    ensures Acceptable(g, before, [p], cursor) && LastToFirst(before, [p], 0) == after
  {
    hide Native, PlacedCursor;
    var n := |before| - p.end;
    assert [p][1..] == [] && Ordered([p], 0, |before|);
    assert LastToFirst(before, [], p.end) == before;
    assert Splice(before, p) == after by {
      assert after == after[..p.start] + after[p.start..|after| - n] + after[|after| - n..];
    }
    assert Removed([p]) == p.end - p.start && Inserted([p]) == |p.replacement|;
  }

  method PatchAcross(g: Graphemes, before: Text, after: Text, cursor: Cursor) returns (r: Result<Text, PatchError>)
    requires EndsAreBoundaries(g) && PlacedCursor(g, after, cursor)
    requires |before| <= MAX_EDITOR_DOCUMENT_BYTES && |after| <= MAX_EDITOR_DOCUMENT_BYTES
    ensures r == Ok(after)
  {
    hide Native, PlacedCursor;
    var span := ChangedSpan(g, before, after);
    if before != after { SpanPatchesBack(g, before, after, span.value[0], cursor);
        assert span.value == [span.value[0]]; }
    r := PatchedEditorText(g, before, span.value, cursor);
  }
}
