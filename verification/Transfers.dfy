// The document transfer lane (crates/view-wire/src/editor_document.rs:122-511): one side cuts a
// document into numbered chunks, the other puts it together again, whatever else comes its way.
module Transfers {
  import opened Wrappers
  import opened Texts
  import opened EditorLines
  import opened EditorPatches
  import opened Grammars

  const MAX_EDITOR_CHUNK_BYTES: nat := 65_536
  const MAX_DOCUMENT_NAME_BYTES: nat := 1024

  datatype DocumentRef = DocumentRef(document: Text, reset: nat, textRevision: nat, revision: nat, cursor: Cursor,
      byteLen: nat)

  datatype TransferId = TransferId(instance: nat, document: Text, reset: nat, serial: nat, attempt: nat)

  datatype Frame =
    | Begin(id: TransferId, target: DocumentRef)
    | Chunk(id: TransferId, index: nat, bytes: Text)
    | Complete(id: TransferId)
    | Abort(id: TransferId)

  datatype TransferError = LimitError | IdentityError | OrderError | LengthError | Utf8Error | CursorMisplaced | Aborted

  // ---- what a reference may say --------------------------------------------------------------------

  predicate InBytes(target: DocumentRef, p: Position) {
    p.line <= target.byteLen && p.column <= target.byteLen
  }

  function Validate(target: DocumentRef): Option<TransferError> {
    if target.document == [] || |target.document| > MAX_DOCUMENT_NAME_BYTES
        || target.byteLen > MAX_EDITOR_DOCUMENT_BYTES then
      Some(LimitError)
    else if !InBytes(target, target.cursor.position)
        || (target.cursor.selection.Some? && !InBytes(target, target.cursor.selection.value)) then
      Some(CursorMisplaced)
    else None
  }

  function ValidateText(g: Graphemes, target: DocumentRef, text: Text): Option<TransferError> {
    if Validate(target).Some? then Validate(target)
    else if |text| != target.byteLen then Some(LengthError)
    else if Clamp(g, text, target.cursor) != target.cursor then Some(CursorMisplaced)
    else None
  }

  function Opened(id: TransferId, target: DocumentRef): Option<TransferError> {
    if Validate(target).Some? then Validate(target)
    else if id.document != target.document || id.reset != target.reset then Some(IdentityError)
    else None
  }

  // A transfer opens exactly on a reference whose name and size are in bounds and whose cursor can be in
  // so many bytes, under an id of the same document and reset.
  lemma OpenedExactly(id: TransferId, target: DocumentRef)
    ensures Opened(id, target) == None <==>
      && 0 < |target.document| <= 1024 && target.byteLen <= 0x10_0000
      && target.cursor.position.line <= target.byteLen && target.cursor.position.column <= target.byteLen
      && (target.cursor.selection.Some? ==> target.cursor.selection.value.line <= target.byteLen
                                            && target.cursor.selection.value.column <= target.byteLen)
      && id.document == target.document && id.reset == target.reset
  {
  }

  // A text is the one a reference speaks of, as far as the reference tells, exactly if it has its length
  // and its cursor can stand in it.
  lemma TextFitsExactly(g: Graphemes, target: DocumentRef, text: Text)
    requires EndsAreBoundaries(g)
    ensures ValidateText(g, target, text) == None <==>
      Validate(target) == None && |text| == target.byteLen && PlacedCursor(g, text, target.cursor)
  {
    hide Validate, Clamp, PlacedCursor;
    ClampFixesPlaced(g, text, target.cursor);
  }

  // ---- the frames of one document ------------------------------------------------------------------

  function ChunksNeeded(len: nat): nat {
    (len + MAX_EDITOR_CHUNK_BYTES - 1) / MAX_EDITOR_CHUNK_BYTES
  }

  function Least(a: nat, b: nat): nat {
    if a < b then a else b
  }

  // The bytes of one chunk; the last one may be short.
  function ChunkAt(text: Text, index: nat): Text
    requires index * MAX_EDITOR_CHUNK_BYTES < |text|
  {
    var start := index * MAX_EDITOR_CHUNK_BYTES;
    text[start..Least(start + MAX_EDITOR_CHUNK_BYTES, |text|)]
  }

  // Chunk `index` and all after it, then the end.
  function FramesFrom(id: TransferId, text: Text, index: nat): seq<Frame>
    decreases |text| - index * MAX_EDITOR_CHUNK_BYTES
  {
    if index * MAX_EDITOR_CHUNK_BYTES >= |text| then [Complete(id)]
    else [Chunk(id, index, ChunkAt(text, index))] + FramesFrom(id, text, index + 1)
  }

  // What a sender of an unchanged document sends.
  function Frames(id: TransferId, target: DocumentRef, text: Text): seq<Frame> {
    [Begin(id, target)] + FramesFrom(id, text, 0)
  }

  lemma {:induction false} FramesFromCount(id: TransferId, text: Text, index: nat)
    requires index <= ChunksNeeded(|text|)
    ensures |FramesFrom(id, text, index)| == ChunksNeeded(|text|) - index + 1
    decreases |text| - index * MAX_EDITOR_CHUNK_BYTES
  {
    if index * MAX_EDITOR_CHUNK_BYTES < |text| { FramesFromCount(id, text, index + 1); }
  }

  // A begin, a frame per chunk, and an end.
  lemma FrameCount(id: TransferId, target: DocumentRef, text: Text)
    ensures |Frames(id, target, text)| == ChunksNeeded(|text|) + 2
  {
    FramesFromCount(id, text, 0);
  }

  // ---- the sender ----------------------------------------------------------------------------------

  datatype Stage = Opening | Sending(index: nat) | Ended

  class Sender {
    const id: TransferId
    const target: DocumentRef
    var stage: Stage

    constructor (id: TransferId, target: DocumentRef)
      requires Opened(id, target) == None
      ensures this.id == id && this.target == target && stage == Opening
    {
      this.id, this.target := id, target;
      stage := Opening;
    }

    // What is still to be sent of an unchanged document.
    function Rest(text: Text): seq<Frame>
      reads this
    {
      match stage
      case Opening => Frames(id, target, text)
      case Sending(index) => FramesFrom(id, text, index)
      case Ended => []
    }

    // One frame at a time. A document that is no longer the one promised ends the transfer with an
    // abort; text that does not match the promise ends it with an error.
    method NextFrame(g: Graphemes, current: DocumentRef, text: Text) returns (r: Result<Option<Frame>, TransferError>)
      modifies this
      ensures old(stage) == Ended ==> r == Ok(None) && stage == Ended
      ensures old(stage) != Ended && current != target ==> r == Ok(Some(Abort(id))) && stage == Ended
      ensures old(stage) != Ended && current == target && |text| != target.byteLen ==>
          r == Err(LengthError) && stage == Ended
      ensures old(stage) == Opening && current == target && |text| == target.byteLen
              && ValidateText(g, target, text).Some? ==>
        r == Err(ValidateText(g, target, text).value) && stage == Ended
      ensures old(stage) != Ended && current == target && |text| == target.byteLen ==>
        (old(stage) == Opening ==> ValidateText(g, target, text) == None) ==>
          old(Rest(text)) != [] && r == Ok(Some(old(Rest(text))[0])) && Rest(text) == old(Rest(text))[1..]
    {
      hide Clamp, Validate;
      if stage == Ended {
        return Ok(None);
      }
      if current != target {
        stage := Ended;
        return Ok(Some(Abort(id)));
      }
      if |text| != target.byteLen {
        stage := Ended;
        return Err(LengthError);
      }
      match stage {
        case Opening =>
          var fault := ValidateText(g, target, text);
          if fault.Some? {
            stage := Ended;
            return Err(fault.value);
          }
          stage := Sending(0);
          r := Ok(Some(Begin(id, target)));
        case Sending(index) =>
          var start := index * MAX_EDITOR_CHUNK_BYTES;
          if start >= |text| {
            stage := Ended;
            r := Ok(Some(Complete(id)));
          } else {
            var end := Least(start + MAX_EDITOR_CHUNK_BYTES, |text|);
            stage := Sending(index + 1);
            r := Ok(Some(Chunk(id, index, text[start..end])));
          }
      }
    }
  }

  // ---- the receiver, as a value --------------------------------------------------------------------

  // The chunks so far; how many bytes are expected in all.
  datatype Assembler = Assembler(expected: nat, next: nat, bytes: Text)

  function Push(a: Assembler, index: nat, bytes: Text): Result<Assembler, TransferError> {
    if index != a.next || |a.bytes| == a.expected then Err(OrderError)
    else if |bytes| != Least(if a.expected >= |a.bytes| then a.expected - |a.bytes| else 0,
        MAX_EDITOR_CHUNK_BYTES) then Err(LengthError)
    else Ok(Assembler(a.expected, a.next + 1, a.bytes + bytes))
  }

  function Finish(a: Assembler): Result<Text, TransferError> {
    if |a.bytes| != a.expected || a.next != ChunksNeeded(a.expected) then Err(LengthError)
    else if !Utf8(a.bytes) then Err(Utf8Error)
    else Ok(a.bytes)
  }

  datatype Reception = Reception(assembler: Option<Assembler>, ended: bool)

  const WAITING: Reception := Reception(None, false)
  const OVER: Reception := Reception(None, true)

  // One frame addressed to this receiver, while it is still open.
  function ReceiveCurrent(g: Graphemes, target: DocumentRef, s: Reception, frame: Frame): (Reception,
          Result<Option<Text>, TransferError>) {
    match frame
    case Begin(_, claimed) =>
      if claimed != target then (OVER, Err(IdentityError))
      else if s.assembler.Some? then (OVER, Err(OrderError))
      else if target.byteLen > MAX_EDITOR_DOCUMENT_BYTES then (OVER, Err(LimitError))
      else (Reception(Some(Assembler(target.byteLen, 0, [])), false), Ok(None))
    case Chunk(_, index, bytes) =>
      if s.assembler.None? then (OVER, Err(OrderError))
      else (match Push(s.assembler.value, index, bytes)
        case Err(e) => (OVER, Err(e))
        case Ok(after) => (Reception(Some(after), false), Ok(None)))
    case Complete(_) =>
      if s.assembler.None? then (OVER, Err(OrderError))
      else (match Finish(s.assembler.value)
        case Err(e) => (OVER, Err(e))
        case Ok(text) => if ValidateText(g, target, text).Some? then (OVER, Err(ValidateText(g, target, text).value))
            else (OVER, Ok(Some(text))))
    case Abort(_) => (OVER, Err(Aborted))
  }

  function Receive(g: Graphemes, id: TransferId, target: DocumentRef, s: Reception, frame: Frame): (Reception,
          Result<Option<Text>, TransferError>) {
    if frame.id != id then (s, Err(IdentityError))
    else if s.ended then (s, Err(OrderError))
    else ReceiveCurrent(g, target, s, frame)
  }

  function After(g: Graphemes, id: TransferId, target: DocumentRef, frames: seq<Frame>): Reception {
    if frames == [] then WAITING
    else Receive(g, id, target, After(g, id, target, frames[..|frames| - 1]), frames[|frames| - 1]).0
  }

  // What the receiver answers to the last frame of these.
  function Answer(g: Graphemes, id: TransferId, target: DocumentRef,
          frames: seq<Frame>): Result<Option<Text>, TransferError>
    requires frames != []
  {
    Receive(g, id, target, After(g, id, target, frames[..|frames| - 1]), frames[|frames| - 1]).1
  }

  // ---- what the receiver keeps ---------------------------------------------------------------------

  // A frame of another transfer changes nothing; an error on its own ends it with an empty buffer,
  // and an ended receiver stays so and yields nothing.
  lemma ReceiverIsGuarded(g: Graphemes, id: TransferId, target: DocumentRef, s: Reception, frame: Frame)
    ensures var (after, r) := Receive(g, id, target, s, frame);
      && (frame.id != id ==> after == s && r == Err(IdentityError))
      && (frame.id == id && s.ended ==> after == s && r == Err(OrderError))
      && (frame.id == id && !s.ended && r.Err? ==> after == OVER)
      && (r.Ok? && r.value.Some? ==> !s.ended && after == OVER)
      && (frame == Complete(id) && !s.ended && s.assembler.Some? ==>
            |s.assembler.value.bytes| != s.assembler.value.expected ==> r == Err(LengthError))
  {
    hide ValidateText, Push;
  }

  // The frames meant for this transfer.
  function Own(id: TransferId, frames: seq<Frame>): seq<Frame> {
    if frames == [] then []
    else Own(id, frames[..|frames| - 1]) + (if frames[|frames| - 1].id == id then [frames[|frames| - 1]] else [])
  }

  // So many full chunks of a text, after the beginning.
  function Begun(id: TransferId, target: DocumentRef, bytes: Text, count: nat): seq<Frame>
    requires count * MAX_EDITOR_CHUNK_BYTES < |bytes| + MAX_EDITOR_CHUNK_BYTES
    decreases count
  {
    if count == 0 then [Begin(id, target)]
    else Begun(id, target, bytes, count - 1) + [Chunk(id, count - 1, ChunkAt(bytes, count - 1))]
  }

  // An open receiver has taken in nothing yet, or exactly a beginning and the chunks of what it has
  // buffered.
  ghost predicate Taken(id: TransferId, target: DocumentRef, own: seq<Frame>, s: Reception) {
    if s.assembler.None? then own == []
    else
      var a := s.assembler.value;
      && a.expected == target.byteLen <= MAX_EDITOR_DOCUMENT_BYTES && |a.bytes| <= a.expected
      && |a.bytes| == Least(a.next * MAX_EDITOR_CHUNK_BYTES, a.expected)
      && a.next <= ChunksNeeded(a.expected)
      && own == Begun(id, target, a.bytes, a.next)
  }

  // More bytes behind leave the full chunks in front as they were.
  lemma {:induction false} BegunGrows(id: TransferId, target: DocumentRef, bytes: Text, more: Text, count: nat)
    requires |bytes| == count * MAX_EDITOR_CHUNK_BYTES
    ensures Begun(id, target, bytes + more, count) == Begun(id, target, bytes, count)
  {
    BegunAgrees(id, target, bytes, bytes + more, count);
  }

  lemma {:induction false} BegunAgrees(id: TransferId, target: DocumentRef, a: Text, b: Text, count: nat)
    requires count * MAX_EDITOR_CHUNK_BYTES <= |a| <= |b| && a == b[..|a|]
    ensures Begun(id, target, b, count) == Begun(id, target, a, count)
  {
    if count > 0 {
      BegunAgrees(id, target, a, b, count - 1);
      var start := (count - 1) * MAX_EDITOR_CHUNK_BYTES;
      var end := start + MAX_EDITOR_CHUNK_BYTES;
      assert Least(end, |a|) == end && Least(end, |b|) == end;
      SliceOfFront(b, |a|, start, end);
    }
  }

  lemma SliceOfFront(b: Text, n: nat, start: nat, end: nat)
    requires start <= end <= n <= |b|
    ensures b[..n][start..end] == b[start..end]
  {
  }

  lemma PushTakes(id: TransferId, target: DocumentRef, own: seq<Frame>, s: Reception, index: nat, bytes: Text)
    requires Taken(id, target, own, s) && s.assembler.Some?
    ensures var r := Push(s.assembler.value, index, bytes);
      r.Ok? ==> Taken(id, target, own + [Chunk(id, index, bytes)], Reception(Some(r.value), false))
  {
    var a := s.assembler.value;
    var r := Push(a, index, bytes);
    if r.Ok? {
      var after := r.value;
      assert |a.bytes| == a.next * MAX_EDITOR_CHUNK_BYTES;
      BegunGrows(id, target, a.bytes, bytes, a.next);
      LastChunkIs(a.bytes, bytes, a.next);
      assert Begun(id, target, after.bytes, a.next + 1) == Begun(id, target, after.bytes, a.next)
          + [Chunk(id, a.next, ChunkAt(after.bytes, a.next))];
    }
  }

  lemma LastChunkIs(front: Text, bytes: Text, count: nat)
    requires |front| == count * MAX_EDITOR_CHUNK_BYTES && 0 < |bytes| <= MAX_EDITOR_CHUNK_BYTES
    ensures ChunkAt(front + bytes, count) == bytes
  {
    var start := count * MAX_EDITOR_CHUNK_BYTES;
    assert Least(start + MAX_EDITOR_CHUNK_BYTES, |front + bytes|) == |front + bytes|;
    assert (front + bytes)[start..] == bytes;
  }

  lemma {:induction false} OpenHasTaken(g: Graphemes, id: TransferId, target: DocumentRef, frames: seq<Frame>)
    ensures var s := After(g, id, target, frames); !s.ended ==> Taken(id, target, Own(id, frames), s)
    ensures var s := After(g, id, target, frames); s.ended ==> s == OVER
  {
    assert Taken(id, target, [], WAITING);
    hide Taken, Push, Finish, ValidateText, Begun;
    if frames != [] {
      var front, frame := frames[..|frames| - 1], frames[|frames| - 1];
      OpenHasTaken(g, id, target, front);
      var s := After(g, id, target, front);
      if frame.id != id {
        assert Own(id, front) + [] == Own(id, front);
      } else if !s.ended {
        match frame
        case Begin(_, claimed) =>
          if claimed == target && s.assembler.None? && target.byteLen <= MAX_EDITOR_DOCUMENT_BYTES {
            BeginTakes(id, target, Own(id, front), s);
          }
        case Chunk(_, index, bytes) =>
          if s.assembler.Some? { PushTakes(id, target, Own(id, front), s, index, bytes); }
        case _ =>
      }
    }
  }

  lemma BeginTakes(id: TransferId, target: DocumentRef, own: seq<Frame>, s: Reception)
    requires Taken(id, target, own, s) && s.assembler.None? && target.byteLen <= MAX_EDITOR_DOCUMENT_BYTES
    ensures Taken(id, target, own + [Begin(id, target)], Reception(Some(Assembler(target.byteLen, 0, [])), false))
  {
    assert own + [Begin(id, target)] == [Begin(id, target)];
  }

  lemma {:induction false} BegunThenRest(id: TransferId, target: DocumentRef, text: Text, count: nat)
    requires count <= ChunksNeeded(|text|)
    ensures Begun(id, target, text, count) + FramesFrom(id, text, count) == Frames(id, target, text)
    decreases count
  {
    if count > 0 {
      BegunThenRest(id, target, text, count - 1);
      var chunk := Chunk(id, count - 1, ChunkAt(text, count - 1));
      Regroup(Begun(id, target, text, count - 1), [chunk], FramesFrom(id, text, count));
    }
  }

  // A receiver yields a text only if the frames meant for it were exactly the frames of that text,
  // and the text is what the reference promises.
  lemma YieldsOnlyWhatWasSent(g: Graphemes, id: TransferId, target: DocumentRef, frames: seq<Frame>, text: Text)
    requires frames != [] && Answer(g, id, target, frames) == Ok(Some(text))
    ensures Own(id, frames) == Frames(id, target, text)
    ensures ValidateText(g, target, text) == None && Utf8(text)
  {
    hide ValidateText, Utf8, Push;
    var front, frame := frames[..|frames| - 1], frames[|frames| - 1];
    OpenHasTaken(g, id, target, front);
    var a := After(g, id, target, front).assembler.value;
    assert a.next == ChunksNeeded(|text|);
    BegunThenRest(id, target, text, a.next);
    assert FramesFrom(id, text, a.next) == [Complete(id)];
  }

  // And it yields at most once: whatever comes after, an ended receiver yields nothing.
  lemma {:induction false} YieldsAtMostOnce(g: Graphemes, id: TransferId, target: DocumentRef, frames: seq<Frame>,
          more: seq<Frame>)
    requires frames != [] && Answer(g, id, target, frames).Ok? && Answer(g, id, target, frames).value.Some?
    ensures After(g, id, target, frames + more) == OVER
    ensures more != [] ==> Answer(g, id, target, frames + more).Err?
  {
    hide ValidateText, Push, Finish;
    if more == [] {
      assert frames + more == frames;
      ReceiverIsGuarded(g, id, target, After(g, id, target, frames[..|frames| - 1]), frames[|frames| - 1]);
    } else {
      YieldsAtMostOnce(g, id, target, frames, more[..|more| - 1]);
      assert (frames + more)[..|frames + more| - 1] == frames + more[..|more| - 1];
      ReceiverIsGuarded(g, id, target, OVER, more[|more| - 1]);
    }
  }

  // ---- a whole transfer ----------------------------------------------------------------------------

  lemma {:induction false} ChunksArrive(g: Graphemes, id: TransferId, target: DocumentRef, text: Text, count: nat)
    requires |text| == target.byteLen <= MAX_EDITOR_DOCUMENT_BYTES && count <= ChunksNeeded(|text|)
    ensures After(g, id, target, Begun(id, target, text, count)) == Reception(Some(Buffered(text, count)), false)
  {
    hide ValidateText, Finish, Push, ChunkAt, After, Buffered;
    if count == 0 {
      BeginArrives(g, id, target, text);
    } else {
      ChunksArrive(g, id, target, text, count - 1);
      ChunkArrives(text, count - 1);
      AfterOneMore(g, id, target, Begun(id, target, text, count - 1), Chunk(id, count - 1, ChunkAt(text, count - 1)));
    }
  }

  lemma BeginArrives(g: Graphemes, id: TransferId, target: DocumentRef, text: Text)
    requires |text| == target.byteLen <= MAX_EDITOR_DOCUMENT_BYTES
    ensures After(g, id, target, Begun(id, target, text, 0)) == Reception(Some(Buffered(text, 0)), false)
  {
    hide ValidateText, Finish, Push;
    assert [Begin(id, target)][..0] == [];
  }

  lemma AfterOneMore(g: Graphemes, id: TransferId, target: DocumentRef, frames: seq<Frame>, frame: Frame)
    ensures After(g, id, target, frames + [frame]) == Receive(g, id, target, After(g, id, target, frames), frame).0
  {
    hide Receive;
    assert (frames + [frame])[..|frames|] == frames;
  }

  // The receiver's buffer after so many chunks of a text.
  function Buffered(text: Text, count: nat): Assembler {
    Assembler(|text|, count, text[..Least(count * MAX_EDITOR_CHUNK_BYTES, |text|)])
  }

  lemma ChunkArrives(text: Text, index: nat)
    requires index < ChunksNeeded(|text|)
    ensures Push(Buffered(text, index), index, ChunkAt(text, index)) == Ok(Buffered(text, index + 1))
  {
    var start := index * MAX_EDITOR_CHUNK_BYTES;
    var end := Least(start + MAX_EDITOR_CHUNK_BYTES, |text|);
    assert text[..start] + text[start..end] == text[..end];
  }

  // The frames of a document that is what its reference promises make the receiver yield exactly
  // that document.
  lemma FramesYieldTheText(g: Graphemes, id: TransferId, target: DocumentRef, text: Text)
    requires ValidateText(g, target, text) == None && Utf8(text)
    ensures Answer(g, id, target, Frames(id, target, text)) == Ok(Some(text))
  {
    hide Clamp, Utf8, Push;
    var count := ChunksNeeded(|text|);
    ChunksArrive(g, id, target, text, count);
    BegunThenRest(id, target, text, count);
    var frames := Frames(id, target, text);
    assert FramesFrom(id, text, count) == [Complete(id)];
    assert frames[..|frames| - 1] == Begun(id, target, text, count);
    assert text[..Least(count * MAX_EDITOR_CHUNK_BYTES, |text|)] == text;
  }

  // Frames of other transfers in between make no difference.
  lemma {:induction false} OnlyOwnMatter(g: Graphemes, id: TransferId, target: DocumentRef, frames: seq<Frame>)
    ensures After(g, id, target, frames) == After(g, id, target, Own(id, frames))
  {
    hide ReceiveCurrent;
    if frames != [] {
      var front, last := frames[..|frames| - 1], frames[|frames| - 1];
      OnlyOwnMatter(g, id, target, front);
      if last.id == id {
        assert Own(id, frames)[..|Own(id, frames)| - 1] == Own(id, front);
      } else {
        assert Own(id, front) + [] == Own(id, front);
      }
    }
  }

  // Among any frames whatever, a frame of this transfer yields a text exactly if the frames meant
  // for it so far are that text's frames and the text is what the reference promises.
  lemma YieldsExactly(g: Graphemes, id: TransferId, target: DocumentRef, frames: seq<Frame>, text: Text)
    requires frames != [] && frames[|frames| - 1].id == id
    ensures Answer(g, id, target, frames) == Ok(Some(text)) <==>
              Own(id, frames) == Frames(id, target, text) && ValidateText(g, target, text) == None && Utf8(text)
  {
    hide ValidateText, Utf8, ReceiveCurrent, Frames;
    if Answer(g, id, target, frames) == Ok(Some(text)) {
      YieldsOnlyWhatWasSent(g, id, target, frames, text);
    }
    if Own(id, frames) == Frames(id, target, text) && ValidateText(g, target, text) == None && Utf8(text) {
      var front, own := frames[..|frames| - 1], Own(id, frames);
      OnlyOwnMatter(g, id, target, front);
      assert own[..|own| - 1] == Own(id, front);
      FramesYieldTheText(g, id, target, text);
    }
  }

  // ---- the receiver, in place ----------------------------------------------------------------------

  class ChunkAssembler {
    const expected: nat
    var next: nat
    var bytes: Text

    constructor (byteLen: nat)
      requires byteLen <= MAX_EDITOR_DOCUMENT_BYTES
      ensures Value() == Assembler(byteLen, 0, [])
    {
      expected, next, bytes := byteLen, 0, [];
    }

    function Value(): Assembler
      reads this
    {
      Assembler(expected, next, bytes)
    }

    method PushChunk(index: nat, chunk: Text) returns (fault: Option<TransferError>)
      requires |bytes| <= expected
      modifies this
      ensures |bytes| <= expected
      ensures match Push(old(Value()), index, chunk)
        case Err(e) => fault == Some(e) && Value() == old(Value())
        case Ok(after) => fault == None && Value() == after
    {
      if index != next || |bytes| == expected {
        return Some(OrderError);
      }
      if |chunk| != Least(expected - |bytes|, MAX_EDITOR_CHUNK_BYTES) {
        return Some(LengthError);
      }
      bytes := bytes + chunk;
      next := next + 1;
      fault := None;
    }
  }

  class Receiver {
    const id: TransferId
    const target: DocumentRef
    var assembler: ChunkAssembler?
    var ended: bool

    constructor (id: TransferId, target: DocumentRef)
      requires Opened(id, target) == None
      ensures this.id == id && this.target == target && Valid() && Value() == WAITING
    {
      this.id, this.target := id, target;
      assembler, ended := null, false;
    }

    ghost predicate Valid()
      reads this, if assembler == null then {} else {assembler}
    {
      assembler != null ==> |assembler.bytes| <= assembler.expected
    }

    function Value(): Reception
      reads this, if assembler == null then {} else {assembler}
    {
      Reception(if assembler == null then None else Some(assembler.Value()), ended)
    }

    method TakeFrame(g: Graphemes, frame: Frame) returns (r: Result<Option<Text>, TransferError>)
      requires Valid()
      modifies this, if assembler == null then {} else {assembler}
      ensures Valid() && (assembler == null || assembler == old(assembler) || fresh(assembler))
      ensures (Value(), r) == Receive(g, id, target, old(Value()), frame)
    {
      hide ValidateText;
      if frame.id != id {
        return Err(IdentityError);
      }
      if ended {
        return Err(OrderError);
      }
      r := TakeCurrent(g, frame);
      if r.Err? {
        assembler, ended := null, true;
      }
    }

    // On an error the buffer is whatever it is; the caller drops it.
    method TakeCurrent(g: Graphemes, frame: Frame) returns (r: Result<Option<Text>, TransferError>)
      requires Valid() && !ended
      modifies this, if assembler == null then {} else {assembler}
      ensures Valid() && (assembler == null || assembler == old(assembler) || fresh(assembler))
      ensures r == ReceiveCurrent(g, target, old(Value()), frame).1
      ensures r.Ok? ==> Value() == ReceiveCurrent(g, target, old(Value()), frame).0
    {
      hide ValidateText;
      match frame {
        case Begin(_, claimed) =>
          if claimed != target {
            return Err(IdentityError);
          }
          if assembler != null {
            return Err(OrderError);
          }
          if claimed.byteLen > MAX_EDITOR_DOCUMENT_BYTES {
            return Err(LimitError);
          }
          assembler := new ChunkAssembler(claimed.byteLen);
          r := Ok(None);
        case Chunk(_, index, bytes) =>
          if assembler == null {
            return Err(OrderError);
          }
          var fault := assembler.PushChunk(index, bytes);
          r := if fault.Some? then Err(fault.value) else Ok(None);
        case Complete(_) =>
          ended := true;
          if assembler == null {
            return Err(OrderError);
          }
          var finished := Finish(assembler.Value());
          assembler := null;
          if finished.Err? {
            return Err(finished.error);
          }
          var fault := ValidateText(g, target, finished.value);
          r := if fault.Some? then Err(fault.value) else Ok(Some(finished.value));
        case Abort(_) =>
          r := Err(Aborted);
      }
    }
  }
}
