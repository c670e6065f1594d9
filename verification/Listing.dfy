/** Reading the raw listing of a Git tree: records ended by NUL, each a mode, a kind and an object id,
    a tab, and a path that may hold anything but NUL. */
module Listing {
  import opened Core
  import opened BlobBatch
  import TreeEntries

  const NUL: Byte := 0
  const TAB: Byte := 9

  /** Strict UTF-8 decoding, which may fail. */
  type Decoder = seq<Byte> -> Option<string>

  /** The characters of ASCII bytes. */
  function Characters(bytes: seq<Byte>): (r: string)
    ensures |r| == |bytes| && forall i :: 0 <= i < |bytes| ==> r[i] as int == bytes[i]
  {
    seq(|bytes|, i requires 0 <= i < |bytes| => bytes[i] as char)
  }

  /** A record without a tab, with other than three words, or with a path that does not decode is
      malformed. */
  function ReadRecord(decode: Decoder, record: seq<Byte>): TreeEntries.Record {
    var tab := Find(record, TAB, 0);
    if tab == |record| then TreeEntries.Malformed
    else
      var words, path := Words(record[..tab]), decode(record[tab + 1..]);
      if words.None? || path.None? then TreeEntries.Malformed
      else
        var (mode, kind, oid) := words.value;
        TreeEntries.Record(Characters(mode), Characters(kind), Characters(oid), path.value)
  }

  /** What follows the first NUL. */
  function Rest(raw: seq<Byte>): (rest: seq<Byte>)
    requires raw != []
    ensures |rest| < |raw|
  {
    var end := Find(raw, NUL, 0);
    if end == |raw| then [] else raw[end + 1..]
  }

  /** The record before the first NUL; an empty piece is none. */
  function First(decode: Decoder, raw: seq<Byte>): seq<TreeEntries.Record> {
    var end := Find(raw, NUL, 0);
    if end == 0 then [] else [ReadRecord(decode, raw[..end])]
  }

  function Records(decode: Decoder, raw: seq<Byte>): seq<TreeEntries.Record>
    decreases |raw|
  {
    if raw == [] then [] else First(decode, raw) + Records(decode, Rest(raw))
  }

  lemma NoRecords(decode: Decoder)
    ensures Records(decode, []) == []
  {
  }

  lemma RecordsStep(decode: Decoder, raw: seq<Byte>, before: seq<TreeEntries.Record>)
    requires raw != []
    ensures before + Records(decode, raw) == before + First(decode, raw) + Records(decode, Rest(raw))
  {
    hide First, Rest;
    ConcatAssociates(before, First(decode, raw), Records(decode, Rest(raw)));
  }

  /** The loop over the pieces between NULs, empty ones skipped. */
  method ReadListing(decode: Decoder, raw: seq<Byte>) returns (records: seq<TreeEntries.Record>)
    ensures records == Records(decode, raw)
  {
    hide ReadRecord, Find, Records;
    NoRecords(decode);
    records := [];
    var left := raw;
    while left != []
      invariant records + Records(decode, left) == Records(decode, raw)
      decreases |left|
    {
      RecordsStep(decode, left, records);
      var end := Find(left, NUL, 0);
      if end > 0 {
        records := records + [ReadRecord(decode, left[..end])];
      } else {
        assert records + [] == records;
      }
      left := Rest(left);
    }
    assert records + [] == records;
  }

  function NulEnded(pieces: seq<seq<Byte>>): seq<Byte> {
    if pieces == [] then [] else pieces[0] + [0] + NulEnded(pieces[1..])
  }

  function ReadPieces(decode: Decoder, pieces: seq<seq<Byte>>): seq<TreeEntries.Record> {
    if pieces == [] then []
    else (if pieces[0] == [] then [] else [ReadRecord(decode, pieces[0])]) + ReadPieces(decode, pieces[1..])
  }

  /** Every input is pieces ended by NUL and a last one that is not. */
  lemma {:induction false} EveryListingSplits(raw: seq<Byte>) returns (pieces: seq<seq<Byte>>, last: seq<Byte>)
    ensures (forall i :: 0 <= i < |pieces| ==> 0 !in pieces[i]) && 0 !in last
    ensures raw == NulEnded(pieces) + last
    decreases |raw|
  {
    var end := Find(raw, NUL, 0);
    hide Find;
    assert raw[0..end] == raw[..end];
    if end == |raw| {
      pieces, last := [], raw;
    } else {
      var more, rest := EveryListingSplits(raw[end + 1..]);
      pieces, last := [raw[..end]] + more, rest;
      assert pieces[1..] == more;
      assert raw == raw[..end] + [0] + raw[end + 1..];
      ConcatAssociates(raw[..end] + [0], NulEnded(more), rest);
    }
  }

  /** Each piece that is not empty is read as one record, in order. */
  lemma {:induction false} ListingMeans(decode: Decoder, pieces: seq<seq<Byte>>, last: seq<Byte>)
    requires (forall i :: 0 <= i < |pieces| ==> 0 !in pieces[i]) && 0 !in last
    ensures Records(decode, NulEnded(pieces) + last) == ReadPieces(decode, pieces + [last])
  {
    hide ReadRecord;
    if pieces == [] {
      LastPiece(decode, last);
      assert NulEnded([]) + last == last && [] + [last] == [last];
    } else {
      var rest := NulEnded(pieces[1..]) + last;
      ListingMeans(decode, pieces[1..], last);
      ConcatTail(pieces, [last]);
      FirstPiece(decode, pieces[0], rest);
      ConcatAssociates(pieces[0] + [0], NulEnded(pieces[1..]), last);
    }
  }

  lemma FirstPiece(decode: Decoder, piece: seq<Byte>, rest: seq<Byte>)
    requires 0 !in piece
    ensures Records(decode, piece + [0] + rest) == (if piece == [] then [] else [ReadRecord(decode, piece)]) + Records(decode, rest)
  {
    hide ReadRecord, Find;
    var raw := piece + [0] + rest;
    FindIsFirst(piece, NUL, rest);
    assert raw[..|piece|] == piece && raw[|piece| + 1..] == rest;
  }

  lemma LastPiece(decode: Decoder, last: seq<Byte>)
    requires 0 !in last
    ensures Records(decode, last) == ReadPieces(decode, [last])
  {
    hide ReadRecord, Find;
    NoRecords(decode);
    if last != [] {
      assert Find(last, NUL, 0) == |last|;
      assert last[..|last|] == last;
    }
    assert [last][1..] == [];
  }

  // ----- what Git prints -----

  datatype Item = Item(mode: seq<Byte>, kind: seq<Byte>, oid: seq<Byte>, path: seq<Byte>)

  /** Words without separators, and a path that holds no NUL but may hold tabs, spaces and newlines. */
  predicate Separable(item: Item) {
    && Word(item.mode) && Word(item.kind) && Word(item.oid) && 0 !in item.path
  }

  predicate Word(w: seq<Byte>) {
    IsWord(w) && 9 !in w && 0 !in w
  }

  function Metadata(item: Item): seq<Byte> {
    item.mode + [32] + (item.kind + [32] + item.oid)
  }

  function Print(item: Item): seq<Byte> {
    Metadata(item) + [9] + item.path
  }

  function PrintAll(items: seq<Item>): seq<Byte> {
    if items == [] then [] else Print(items[0]) + [0] + PrintAll(items[1..])
  }

  function Meant(decode: Decoder, item: Item): TreeEntries.Record {
    var path := decode(item.path);
    if path.None? then TreeEntries.Malformed
    else TreeEntries.Record(Characters(item.mode), Characters(item.kind), Characters(item.oid), path.value)
  }

  /** A record splits at its first tab into three words and a path. */
  predicate Spaced(item: Item) {
    Spaceless(item.mode) && Spaceless(item.kind) && Spaceless(item.oid) && 9 !in Metadata(item)
  }

  /** A record is understood exactly if it is three words, a tab and a path that can be decoded. */
  lemma RecordMeans(decode: Decoder, record: seq<Byte>)
    ensures ReadRecord(decode, record).Record? <==>
            exists item :: Spaced(item) && record == Print(item) && decode(item.path).Some?
    ensures forall item :: Spaced(item) && record == Print(item) ==> ReadRecord(decode, record) == Meant(decode, item)
  {
    var tab := Find(record, TAB, 0);
    if ReadRecord(decode, record).Record? {
      var m := record[..tab];
      assert record[0..tab] == m;
      ThreeOfWords(m);
      var (mode, kind, oid) := Words(m).value;
      var item := Item(mode, kind, oid, record[tab + 1..]);
      assert Metadata(item) == m && record == Print(item);
    }
    hide ReadRecord;
    forall item | Spaced(item) && record == Print(item)
      ensures ReadRecord(decode, record) == Meant(decode, item)
    {
      ItemIsRead(decode, item);
    }
  }

  lemma ItemIsRead(decode: Decoder, item: Item)
    requires Spaced(item)
    ensures ReadRecord(decode, Print(item)) == Meant(decode, item)
  {
    hide Words, Find;
    var m := Metadata(item);
    FindIsFirst(m, TAB, item.path);
    WordsOfThree(item.mode, item.kind, item.oid);
    assert Print(item)[..|m|] == m && Print(item)[|m| + 1..] == item.path;
  }

  lemma RecordReadsBack(decode: Decoder, item: Item)
    requires Separable(item)
    ensures ReadRecord(decode, Print(item)) == Meant(decode, item)
  {
    assert forall b :: b in Metadata(item) ==> b in item.mode || b in item.kind || b in item.oid || b == SPACE;
    ItemIsRead(decode, item);
  }

  lemma PrintHasNoNul(item: Item)
    requires Separable(item)
    ensures NUL !in Print(item) && Print(item) != []
  {
    var m := Metadata(item);
    assert forall b :: b in Print(item) ==> b in item.mode || b in item.kind || b in item.oid || b == SPACE || b == TAB || b in item.path;
  }

  lemma FirstReadsBack(decode: Decoder, item: Item, rest: seq<Byte>)
    requires Separable(item)
    ensures var raw := Print(item) + [NUL] + rest;
            First(decode, raw) == [Meant(decode, item)] && Rest(raw) == rest
  {
    hide ReadRecord, Meant, Find, Print;
    var first := Print(item);
    var raw := first + [NUL] + rest;
    PrintHasNoNul(item);
    RecordReadsBack(decode, item);
    FindIsFirst(first, NUL, rest);
    assert raw[..|first|] == first && raw[|first| + 1..] == rest;
  }

  /** What was printed is read back record by record, whatever stands in the paths. */
  lemma {:induction false} ListingReadsBack(decode: Decoder, items: seq<Item>)
    requires forall i :: 0 <= i < |items| ==> Separable(items[i])
    ensures Records(decode, PrintAll(items)) == MeantAll(decode, items)
  {
    hide Print, First, Rest, Meant, Separable;
    if items != [] {
      FirstReadsBack(decode, items[0], PrintAll(items[1..]));
      ListingReadsBack(decode, items[1..]);
    }
  }

  function MeantAll(decode: Decoder, items: seq<Item>): seq<TreeEntries.Record> {
    if items == [] then [] else [Meant(decode, items[0])] + MeantAll(decode, items[1..])
  }
}
