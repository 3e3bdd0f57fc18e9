/** Transport-level reassembly of MVS records (crates/frd-protocol-apple/src/mvs_stream.rs). */
module MvsStream {
  import opened Bytes
  import opened Results

  const MAX_RECORD_PAYLOAD := 16 * 1024 * 1024

  datatype MvsRect = MvsRect(x: u16, y: u16, width: u16, height: u16)

  const ZERO_RECT := MvsRect(0, 0, 0, 0)

  datatype MvsRecord = MvsRecord(rect: MvsRect, payload: seq<u8>)

  datatype PendingRecord = PendingRecord(rect: MvsRect, total: u32, payload: seq<u8>)

  predicate FitsSurface(rect: MvsRect, width: u16, height: u16) {
    && rect.width > 0
    && rect.height > 0
    && rect.x + rect.width <= MAX_U16
    && rect.y + rect.height <= MAX_U16
    && rect.x + rect.width <= width
    && rect.y + rect.height <= height
  }

  class MvsRecordAssembler {
    var pending: Option<PendingRecord>

    /** A pending record still lacks at least one byte. */
    ghost predicate Valid()
      reads this
    {
      pending.Some? ==>
        |pending.value.payload| < pending.value.total <= MAX_RECORD_PAYLOAD
    }

    constructor ()
      ensures Valid() && pending == None
    {
      pending := None;
    }

    method Begin(rect: MvsRect, total: u32, first: seq<u8>) returns (r: Result<Option<MvsRecord>>)
      requires Valid()
      modifies this
      ensures Valid()
      ensures r.Ok? <==> old(pending).None? && 1 <= total <= MAX_RECORD_PAYLOAD && |first| <= total
      ensures r.Ok? ==> (r.value.Some? <==> |first| == total)
      ensures r.Ok? && r.value.Some? ==> r.value.value == MvsRecord(rect, first) && pending == None
      ensures r.Ok? && r.value.None? ==> pending == Some(PendingRecord(rect, total, first))
      ensures r.Err? ==> pending == None
    {
      if pending.Some? {
        pending := None;
        return Err;
      }
      if total == 0 || total > MAX_RECORD_PAYLOAD || |first| > total {
        return Err;
      }
      if |first| == total {
        return Ok(Some(MvsRecord(rect, first)));
      }
      pending := Some(PendingRecord(rect, total, first));
      return Ok(None);
    }

    method PushContinuation(chunk: seq<u8>) returns (r: Result<Option<MvsRecord>>)
      requires Valid()
      modifies this
      ensures Valid()
      ensures r.Ok? <==> old(pending).Some? && |old(pending).value.payload| + |chunk| <= old(pending).value.total
      ensures r.Ok? ==>
                var before := old(pending).value;
                && (r.value.Some? <==> |before.payload| + |chunk| == before.total)
                && (r.value.Some? ==>
                      r.value.value == MvsRecord(before.rect, before.payload + chunk) && pending == None)
                && (r.value.None? ==>
                      pending == Some(before.(payload := before.payload + chunk)))
      ensures r.Err? ==> pending == None
    {
      if pending.None? {
        return Err;
      }
      var taken := pending.value;
      pending := None;
      if |chunk| > taken.total - |taken.payload| {
        return Err;
      }
      taken := taken.(payload := taken.payload + chunk);
      if |taken.payload| == taken.total {
        return Ok(Some(MvsRecord(taken.rect, taken.payload)));
      }
      pending := Some(taken);
      return Ok(None);
    }
  }
}
