// What stored bytes mean to the reachability walk: object bodies decoded, and retention records
// recognised (crates/duckfs/core/src/retention.rs:57-102, crates/duckfs/core/src/wire.rs:596-626).
module Records {
  import opened Wrappers
  import opened Texts
  import opened Kinds
  import opened Order
  import opened Sorting
  import opened Grammars
  import opened Layouts
  import opened Objects
  import Reachability

  // ---- hex -----------------------------------------------------------------------------------------

  function HexDigit(n: nat): Byte
    requires n < 16
  {
    if n < 10 then '0' as int + n else 'a' as int + n - 10
  }

  function HexValue(c: Byte): Option<nat> {
    if '0' as int <= c <= '9' as int then Some(c - '0' as int)
    else if 'a' as int <= c <= 'f' as int then Some(c - 'a' as int + 10)
    else None
  }

  function ToHex(bytes: Text): (hex: Text)
    ensures |hex| == 2 * |bytes|
  {
    if bytes == [] then []
    else [HexDigit(bytes[0] / 16), HexDigit(bytes[0] % 16)] + ToHex(bytes[1..])
  }

  // Two lower-case digits for every byte, the high one first.
  lemma {:induction false} HexIs(bytes: Text, i: nat)
    requires i < |bytes|
    ensures var digits := [48, 49, 50, 51, 52, 53, 54, 55, 56, 57, 97, 98, 99, 100, 101, 102];
      ToHex(bytes)[2 * i] == digits[bytes[i] / 16] && ToHex(bytes)[2 * i + 1] == digits[bytes[i] % 16]
  {
    if i > 0 { HexIs(bytes[1..], i - 1); }
  }

  function FromHexPairs(hex: Text): Option<Text> {
    if |hex| < 2 then if hex == [] then Some([]) else None
    else
      match (HexValue(hex[0]), HexValue(hex[1]), FromHexPairs(hex[2..]))
      case (Some(hi), Some(lo), Some(rest)) => Some([16 * hi + lo] + rest)
      case _ => None
  }

  // Sixty-four lower-case digits, and nothing else.
  function FromHex32(hex: Text): Option<Id> {
    if |hex| == 64 then FromHexPairs(hex) else None
  }

  lemma HexPairsRoundTrip(bytes: Text, hex: Text)
    ensures FromHexPairs(ToHex(bytes)) == Some(bytes)
    ensures FromHexPairs(hex) == Some(bytes) ==> hex == ToHex(bytes)
  {
    HexBack(bytes);
    HexOnly(bytes, hex);
  }

  lemma DigitsUndo(n: nat, c: Byte)
    ensures n < 16 ==> HexValue(HexDigit(n)) == Some(n)
    ensures HexValue(c).Some? ==> HexValue(c).value < 16 && HexDigit(HexValue(c).value) == c
  {
  }

  lemma {:induction false} HexBack(bytes: Text)
    ensures FromHexPairs(ToHex(bytes)) == Some(bytes)
  {
    hide HexDigit, HexValue;
    if bytes != [] {
      var b := bytes[0];
      DigitsUndo(b / 16, 0);
      DigitsUndo(b % 16, 0);
      HexBack(bytes[1..]);
      var hex := [HexDigit(b / 16), HexDigit(b % 16)] + ToHex(bytes[1..]);
      assert hex[2..] == ToHex(bytes[1..]) && hex[0] == HexDigit(b / 16) && hex[1] == HexDigit(b % 16);
      assert 16 * (b / 16) + b % 16 == b && [b] + bytes[1..] == bytes;
    }
  }

  lemma PairOf(hi: nat, lo: nat)
    requires hi < 16 && lo < 16
    ensures (16 * hi + lo) / 16 == hi && (16 * hi + lo) % 16 == lo
  {
  }

  lemma {:induction false} HexOnly(bytes: Text, hex: Text)
    ensures FromHexPairs(hex) == Some(bytes) ==> hex == ToHex(bytes)
    decreases |hex|
  {
    hide HexDigit, HexValue;
    if FromHexPairs(hex) == Some(bytes) && hex != [] {
      DigitsUndo(0, hex[0]);
      DigitsUndo(0, hex[1]);
      var rest := FromHexPairs(hex[2..]).value;
      PairOf(HexValue(hex[0]).value, HexValue(hex[1]).value);
      HexOnly(rest, hex[2..]);
      assert bytes[1..] == rest && hex == [hex[0], hex[1]] + hex[2..];
    }
  }

  // Every id has exactly one hex form.
  lemma HexIsCanonical(id: Id, hex: Text)
    requires IsId(id)
    ensures FromHex32(hex) == Some(id) <==> hex == ToHex(id)
  {
    HexPairsRoundTrip(id, hex);
  }

  // ---- retention records ---------------------------------------------------------------------------

  const SNAPSHOT_KEY: Text := ['s' as int, 'n' as int, 'a' as int, 'p' as int, 's' as int, 'h' as int, 'o' as int,
      't' as int]
  const REVISION_KEY: Text := ['r' as int, 'e' as int, 'v' as int, 'i' as int, 's' as int, 'i' as int, 'o' as int,
      'n' as int]
  const COUNT_KEY: Text := ['c' as int, 'o' as int, 'u' as int, 'n' as int, 't' as int]

  // The value a string of digits stands for.
  function Decimal(text: Text): Option<nat> {
    if text == [] then Some(0)
    else
      var last := text[|text| - 1];
      match Decimal(text[..|text| - 1])
      case Some(n) => if '0' as int <= last <= '9' as int then Some(10 * n + last - '0' as int) else None
      case None => None
  }

  // A canonical number: no sign, no leading zero, not zero, a u64.
  function PositiveNumber(text: Text): Option<nat> {
    if text == [] || text[0] == '0' as int then None
    else
      match Decimal(text)
      case Some(n) => if n < Range(8) then Some(n) else None
      case None => None
  }

  // The snapshot a file object keeps where it is a retention record.
  function RecordOf(f: FileObj): Option<Id> {
    if !(f.size == 0 && f.chunks == [] && |f.meta| == 2) then None
    else if SNAPSHOT_KEY !in f.meta then None
    else
      match FromHex32(f.meta[SNAPSHOT_KEY])
      case None => None
      case Some(id) =>
        if REVISION_KEY in f.meta then if PositiveNumber(f.meta[REVISION_KEY]).Some? then Some(id) else None
        else if COUNT_KEY in f.meta && PositiveNumber(f.meta[COUNT_KEY]).Some? then Some(id)
        else None
  }

  // ---- stored bytes as the walk sees them ----------------------------------------------------------

  datatype Blob = Blob(kind: ObjectKind, body: Text)

  type Odb = map<Id, Blob>

  function ObjectOf(blob: Blob): Reachability.Object {
    match blob.kind
    case ChunkKind => Reachability.ChunkObject
    case FileKind =>
      Reachability.FileObject(match DecodeFile(blob.body)
        case None => None
        case Some(f) => Some(Reachability.FileView(f.chunks, RecordOf(f))))
    case TreeKind =>
      Reachability.TreeObject(match DecodeTree(blob.body)
        case None => None
        case Some(t) => Some(EntriesOf(t)))
    case SnapshotKind =>
      Reachability.SnapshotObject(match DecodeSnapshot(blob.body)
        case None => None
        case Some(s) => Some(s.root))
  }

  // A directory's entries in name order.
  function EntriesOf(t: TreeObj): seq<Reachability.Entry> {
    BelowIsTotal();
    var list := Entries(Below, t.entries);
    seq(|list|, i requires 0 <= i < |list| => Reachability.Entry(list[i].1.kind, list[i].1.id))
  }

  function View(odb: Odb): (store: Reachability.Store)
    ensures store.Keys == odb.Keys
  {
    map id | id in odb :: ObjectOf(odb[id])
  }

  // Every object sits under the id its bytes hash to.
  ghost predicate Hashed(hash: Blob -> Id, odb: Odb) {
    forall id :: id in odb ==> hash(odb[id]) == id
  }

  // No two of these collide.
  ghost predicate CollisionFree(hash: Blob -> Id, known: set<Blob>) {
    forall a, b :: a in known && b in known && hash(a) == hash(b) ==> a == b
  }

  ghost predicate Injective(hash: Blob -> Id) {
    forall a, b :: hash(a) == hash(b) ==> a == b
  }
}
