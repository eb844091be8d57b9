/** The paged payload writer of page_size_benchmark.py: length-prefixed records packed into
    fixed-size pages behind a 32-byte header. */
module PagedStore {
  import opened Common
  import opened LittleEndian
  import opened RandomAccess
  import opened PagedFetch

  const HEADER_BYTES := 32
  const MAGIC_BYTES := 8
  const LENGTH_BYTES := 4

  predicate Supported(pageSize: nat) {
    pageSize == 4096 || pageSize == 16384 || pageSize == 65536 || pageSize == 262144
  }

  datatype WriteError = UnsupportedPageSize | RecordTooLarge

  function Header(magic: Bytes, pageSize: nat, pages: nat, records: nat): (h: Bytes)
    requires |magic| == MAGIC_BYTES
    ensures |h| == HEADER_BYTES
  {
    magic + ToLE(pageSize, 4) + ToLE(0, 4) + ToLE(pages, 8) + ToLE(records, 8)
  }

  function Record(payload: Bytes): (r: Bytes)
    ensures |r| == LENGTH_BYTES + |payload|
  {
    ToLE(|payload|, LENGTH_BYTES) + payload
  }

  /** The header: magic, page size in four bytes, four zero bytes, and the numbers of pages and records in eight
      bytes each. A record: its payload's length in four bytes and the payload. */
  lemma Layout(magic: Bytes, pageSize: nat, pages: nat, records: nat, payload: Bytes)
    requires |magic| == 8
    ensures var h := Header(magic, pageSize, pages, records);
      && |h| == 32 && Stands(h, 0, magic) && Spells(h, 8, 4, pageSize) && Spells(h, 12, 4, 0)
      && Spells(h, 16, 8, pages) && Spells(h, 24, 8, records)
    ensures Spells(Record(payload), 0, 4, |payload|) && Stands(Record(payload), 4, payload)
  {
    HeaderShape(magic, pageSize, pages, records);
    RecordShape(payload);
    var h, r := Header(magic, pageSize, pages, records), Record(payload);
    var t2 := ToLE(pages, 8) + (ToLE(records, 8) + []);
    Whole(h);
    Whole(r);
    hide ToLE, Header, Record, Spells, Stands, From;
    Next(h, 0, magic, ToLE(pageSize, 4) + (ToLE(0, 4) + t2));
    NextInt(h, 8, pageSize, 4, ToLE(0, 4) + t2);
    NextInt(h, 12, 0, 4, t2);
    NextInt(h, 16, pages, 8, ToLE(records, 8) + []);
    NextInt(h, 24, records, 8, []);
    NextInt(r, 0, |payload|, 4, payload + []);
    Next(r, 4, payload, []);
  }

  lemma HeaderShape(magic: Bytes, pageSize: nat, pages: nat, records: nat)
    requires |magic| == 8
    ensures Header(magic, pageSize, pages, records)
      == magic + (ToLE(pageSize, 4) + (ToLE(0, 4) + (ToLE(pages, 8) + (ToLE(records, 8) + []))))
  {
    hide ToLE;
  }

  lemma RecordShape(payload: Bytes)
    ensures Record(payload) == ToLE(|payload|, 4) + (payload + [])
  {
    hide ToLE;
  }

  // The image holds the payload's record at the pointer's offset.
  ghost predicate Stored(image: Bytes, p: Pointer, payload: Bytes) {
    && p.payloadLength == |payload| && p.stored == LENGTH_BYTES + |payload|
    && End(p) <= |image| && image[p.absolute..End(p)] == Record(payload)
  }

  // The record lies inside the page it names.
  ghost predicate InPage(p: Pointer, pageSize: nat) {
    && p.pageSize == pageSize && p.pageOffset + p.stored <= pageSize
    && p.absolute == HEADER_BYTES + PageStart(p.pageId, pageSize) + p.pageOffset
  }

  function PageStart(pageId: nat, pageSize: nat): nat {
    pageId * pageSize
  }

  lemma NextPage(pageId: nat, pageSize: nat)
    ensures PageStart(pageId + 1, pageSize) == PageStart(pageId, pageSize) + pageSize
  {
  }

  lemma StoredElsewhere(image: Bytes, image': Bytes, p: Pointer, payload: Bytes, top: nat)
    requires Stored(image, p, payload) && End(p) <= top <= |image| && top <= |image'|
    requires forall i | HEADER_BYTES <= i < top :: image[i] == image'[i]
    requires HEADER_BYTES <= p.absolute
    ensures Stored(image', p, payload)
  {
    hide Record;
    assert image'[p.absolute..End(p)] == image[p.absolute..End(p)];
  }

  /** A stored record reads back as its payload. */
  lemma StoredReads(file: Bytes, p: Pointer, payload: Bytes)
    requires Stored(file, p, payload) && |payload| < 0x1_0000_0000
    ensures ReadPayload(file, p) == Ok(payload)
  {
    hide ToLE, FromLE, Pow256;
    Pow256Values();
    FromToLE(|payload|, 4);
    ReadableIff(file, p.absolute, p.stored);
    var raw := Record(payload);
    RecordParts(payload);
    hide ReadAt, Record;
  }

  lemma RecordParts(payload: Bytes)
    ensures Record(payload)[..LENGTH_BYTES] == ToLE(|payload|, LENGTH_BYTES) && Record(payload)[LENGTH_BYTES..] == payload
  {
    var prefix := ToLE(|payload|, LENGTH_BYTES);
    assert (prefix + payload)[..|prefix|] == prefix && (prefix + payload)[|prefix|..] == payload;
  }

  lemma RecordSize(payload: Bytes)
    ensures |Record(payload)| == LENGTH_BYTES + |payload|
  {
  }

  // An image that keeps the bytes between header and top keeps every record stored below the top.
  lemma KeepStored(image: Bytes, image': Bytes, pointers: seq<Pointer>, payloads: seq<Bytes>, pageSize: nat, top: nat)
    requires |pointers| == |payloads| && top <= |image| && top <= |image'|
    requires forall k | 0 <= k < |pointers| :: Stored(image, pointers[k], payloads[k])
    requires forall k | 0 <= k < |pointers| :: InPage(pointers[k], pageSize) && End(pointers[k]) <= top
    requires forall i | HEADER_BYTES <= i < top :: image[i] == image'[i]
    ensures forall k | 0 <= k < |pointers| :: Stored(image', pointers[k], payloads[k])
  {
    hide Stored, InPage;
    forall k | 0 <= k < |pointers| ensures Stored(image', pointers[k], payloads[k]) {
      InPageStart(pointers[k], pageSize);
      StoredElsewhere(image, image', pointers[k], payloads[k], top);
    }
  }

  // Byte i belongs to some record.
  ghost predicate Covered(pointers: seq<Pointer>, i: nat) {
    exists k | 0 <= k < |pointers| :: pointers[k].absolute <= i < End(pointers[k])
  }

  // Behind the header, what belongs to no record is zero.
  ghost predicate Blank(image: Bytes, pointers: seq<Pointer>) {
    forall i | HEADER_BYTES <= i < |image| :: image[i] == 0 || Covered(pointers, i)
  }

  lemma BlankGrows(image: Bytes, image': Bytes, pointers: seq<Pointer>, ptr: Pointer)
    requires Blank(image, pointers) && |image'| == |image|
    requires forall i | 0 <= i < |image| && !(ptr.absolute <= i < End(ptr)) :: image'[i] == image[i]
    ensures Blank(image', pointers + [ptr])
  {
    var all := pointers + [ptr];
    forall i | HEADER_BYTES <= i < |image| ensures image'[i] == 0 || Covered(all, i) {
      if ptr.absolute <= i < End(ptr) {
        assert all[|pointers|] == ptr;
      } else if Covered(pointers, i) {
        var k :| 0 <= k < |pointers| && pointers[k].absolute <= i < End(pointers[k]);
        assert all[k] == pointers[k];
      }
    }
  }

  class PagedPayloadWriter {
    const magic: Bytes
    const pageSize: nat
    var file: Bytes
    var pageId: nat
    var pageOffset: nat
    var page: array<byte>
    var recordCount: nat
    var payloadBytes: nat
    var storedBytes: nat
    var pointers: seq<Pointer>
    // What was written, for the specification.
    ghost var payloads: seq<Bytes>

    // The file as it would be with the open page flushed.
    ghost function Image(): Bytes
      reads this`file, this`page, page
    {
      file + page[..]
    }

    // Where the next record would go.
    ghost function Top(): nat
      reads this`file, this`pageOffset
    {
      |file| + pageOffset
    }

    ghost predicate Shape()
      reads this`file, this`page, this`pageOffset, this`pageId
    {
      && |magic| == MAGIC_BYTES && Supported(pageSize) && page.Length == pageSize && pageOffset <= pageSize
      && |file| == HEADER_BYTES + PageStart(pageId, pageSize)
    }

    // Records lie in their pages, one after another, below the top.
    ghost predicate Laid()
      reads this`pointers, this`file, this`pageOffset
    {
      && (forall k | 0 <= k < |pointers| :: InPage(pointers[k], pageSize) && End(pointers[k]) <= Top())
      && (forall k, m | 0 <= k < m < |pointers| :: End(pointers[k]) <= pointers[m].absolute)
    }

    ghost predicate Holds()
      reads this`pointers, this`payloads, this`file, this`page, page
    {
      && |pointers| == |payloads|
      && forall k | 0 <= k < |pointers| :: Stored(Image(), pointers[k], payloads[k])
    }

    ghost predicate Valid()
      reads this, page
    {
      && Shape() && Laid() && Holds() && Blank(Image(), pointers)
      && recordCount == |pointers| && storedBytes == payloadBytes + LENGTH_BYTES * recordCount
    }

    constructor (magic: Bytes, pageSize: nat)
      requires |magic| == MAGIC_BYTES && Supported(pageSize)
      ensures this.pageSize == pageSize && Valid() && fresh(page) && pointers == [] && payloads == []
    {
      this.magic, this.pageSize := magic, pageSize;
      file := Header(magic, pageSize, 0, 0);
      pageId, pageOffset := 0, 0;
      page := new byte[pageSize](i => 0);
      recordCount, payloadBytes, storedBytes := 0, 0, 0;
      pointers, payloads := [], [];
    }

    method FlushPage()
      requires Valid()
      modifies this`file, this`pageId, this`pageOffset, this`page
      ensures Valid() && fresh(page)
      ensures pageId == old(pageId) + 1 && pageOffset == 0 && file == old(Image())
    {
      hide Supported, Stored, InPage, PageStart, Covered;
      ghost var image, top := Image(), Top();
      NextPage(pageId, pageSize);
      file := file + page[..];
      pageId, pageOffset := pageId + 1, 0;
      page := new byte[pageSize](i => 0);
      KeepStored(image, Image(), pointers, payloads, pageSize, top);
    }

    method WriteRecord(id: int, payload: Bytes) returns (r: Result<Pointer, WriteError>)
      requires Valid()
      modifies this, page
      ensures Valid() && (page == old(page) || fresh(page))
      ensures r.Err? <==> LENGTH_BYTES + |payload| > pageSize
      ensures r.Err? ==> file == old(file) && pageId == old(pageId) && pageOffset == old(pageOffset)
      ensures r.Err? ==> pointers == old(pointers) && payloads == old(payloads)
      ensures r.Ok? ==> pointers == old(pointers) + [r.value] && payloads == old(payloads) + [payload] && r.value.id == id
      ensures r.Ok? && old(pageOffset) + LENGTH_BYTES + |payload| <= pageSize ==> r.value.absolute == old(Top())
      ensures r.Ok? && old(pageOffset) + LENGTH_BYTES + |payload| > pageSize ==>
        r.value.absolute == HEADER_BYTES + PageStart(old(pageId) + 1, pageSize)
      ensures r.Ok? ==> recordCount == old(recordCount) + 1 && payloadBytes == old(payloadBytes) + |payload|
    {
      hide Stored, InPage, PageStart, Record, Blank;
      var stored := LENGTH_BYTES + |payload|;
      if stored > pageSize {
        return Err(RecordTooLarge);
      }
      if pageOffset + stored > pageSize {
        FlushPage();
      }
      var ptr := AppendRecord(id, payload);
      return Ok(ptr);
    }

    // The record goes at the top of the open page.
    method AppendRecord(id: int, payload: Bytes) returns (ptr: Pointer)
      requires Valid() && pageOffset + LENGTH_BYTES + |payload| <= pageSize
      modifies this, page
      ensures Valid() && page == old(page)
      ensures pointers == old(pointers) + [ptr] && payloads == old(payloads) + [payload]
      ensures ptr.id == id && ptr.absolute == old(Top())
      ensures recordCount == old(recordCount) + 1 && payloadBytes == old(payloadBytes) + |payload|
    {
      hide Stored, InPage, PageStart, Record, Supported, Blank;
      var stored := LENGTH_BYTES + |payload|;
      var absolute := HEADER_BYTES + PageStart(pageId, pageSize) + pageOffset;
      ptr := Pointer(id, pageSize, pageId, pageOffset, absolute, |payload|, stored);
      ghost var image := Image();
      RecordSize(payload);
      PutRecord(Record(payload));
      PlacedNow(ptr, Image(), payload);
      KeepStored(image, Image(), pointers, payloads, pageSize, Top());
      BlankGrows(image, Image(), pointers, ptr);
      pageOffset := pageOffset + stored;
      recordCount := recordCount + 1;
      payloadBytes := payloadBytes + |payload|;
      storedBytes := storedBytes + stored;
      pointers := pointers + [ptr];
      payloads := payloads + [payload];
    }

    // Copies a record into the open page at the offset.
    method PutRecord(record: Bytes)
      requires page.Length == pageSize && pageOffset + |record| <= pageSize
      modifies page
      ensures Image()[Top()..Top() + |record|] == record
      ensures forall i | 0 <= i < |Image()| && !(Top() <= i < Top() + |record|) :: Image()[i] == old(Image())[i]
    {
      forall i | 0 <= i < |record| {
        page[pageOffset + i] := record[i];
      }
    }

    method Close()
      requires Valid()
      modifies this, page
      ensures pointers == old(pointers) && payloads == old(payloads)
      ensures |pointers| == |payloads| && forall k | 0 <= k < |pointers| :: Stored(file, pointers[k], payloads[k])
      ensures pageId == old(pageId) + (if old(pageOffset) > 0 || old(pageId) == 0 then 1 else 0)
      ensures |file| == HEADER_BYTES + PageStart(pageId, pageSize)
      ensures |magic| == MAGIC_BYTES && file[..HEADER_BYTES] == Header(magic, pageSize, pageId, recordCount)
      ensures Laid() && Blank(file, pointers)
    {
      hide Stored, InPage, PageStart, Header, Covered;
      if pageOffset > 0 || pageId == 0 {
        FlushPage();
      }
      ghost var image, top := Image(), Top();
      var pages := pageId;
      var rest := file[HEADER_BYTES..];
      file := Header(magic, pageSize, pages, recordCount) + rest;
      KeepStored(image, file, pointers, payloads, pageSize, top);
    }
  }

  /** A writer is opened for exactly the four supported page sizes. */
  method OpenWriter(magic: Bytes, pageSize: nat) returns (r: Result<PagedPayloadWriter, WriteError>)
    requires |magic| == MAGIC_BYTES
    ensures r.Ok? <==> pageSize in {4096, 16384, 65536, 262144}
    ensures r.Err? ==> r.error == UnsupportedPageSize
    ensures r.Ok? ==> fresh(r.value) && fresh(r.value.page) && r.value.Valid() && r.value.pageSize == pageSize && r.value.payloads == []
  {
    if !Supported(pageSize) {
      return Err(UnsupportedPageSize);
    }
    var writer := new PagedPayloadWriter(magic, pageSize);
    return Ok(writer);
  }

  lemma InPageStart(p: Pointer, pageSize: nat)
    requires InPage(p, pageSize)
    ensures HEADER_BYTES <= p.absolute
  {
  }

  lemma PlacedNow(p: Pointer, image: Bytes, payload: Bytes)
    requires p.payloadLength == |payload| && p.stored == LENGTH_BYTES + |payload|
    requires End(p) <= |image| && image[p.absolute..p.absolute + p.stored] == Record(payload)
    requires p.pageOffset + p.stored <= p.pageSize
    requires p.absolute == HEADER_BYTES + PageStart(p.pageId, p.pageSize) + p.pageOffset
    ensures Stored(image, p, payload) && InPage(p, p.pageSize)
  {
    hide Record, PageStart;
  }

  /** Writing records, closing the store and fetching any selection of them, repeats included,
      with any gap: the original payloads come back in request order. */
  method StoreAndFetch(magic: Bytes, pageSize: nat, records: seq<Bytes>, selection: seq<nat>, gap: int)
    returns (fetched: seq<Bytes>)
    requires |magic| == MAGIC_BYTES && pageSize in {4096, 16384, 65536, 262144}
    requires forall k | 0 <= k < |records| :: LENGTH_BYTES + |records[k]| <= pageSize
    requires forall i | 0 <= i < |selection| :: selection[i] < |records|
    ensures |fetched| == |selection| && forall i | 0 <= i < |selection| :: fetched[i] == records[selection[i]]
  {
    hide Stored, InPage, ReadPayload, Blank;
    var made := OpenWriter(magic, pageSize);
    var writer := made.value;
    for k := 0 to |records|
      invariant fresh(writer) && fresh(writer.page) && writer.Valid() && writer.pageSize == pageSize
      invariant writer.payloads == records[..k]
    {
      var written := writer.WriteRecord(k, records[k]);
      assert records[..k + 1] == records[..k] + [records[k]];
    }
    assert records[..|records|] == records;
    writer.Close();
    var pointers := writer.pointers;
    var asked := seq(|selection|, i requires 0 <= i < |selection| => pointers[selection[i]]);
    forall i | 0 <= i < |asked| ensures ReadPayload(writer.file, asked[i]) == Ok(records[selection[i]]) {
      StoredReads(writer.file, asked[i], records[selection[i]]);
    }
    var r, plan, bytesRead := FetchCoalesced(writer.file, asked, gap);
    fetched := r.value;
  }
}
