/** The MVS frames of a capture in source order, and how records are made of them. */
module FrameLedger {
  import opened Bytes
  import opened Results
  import opened MvsStream
  import opened CaptureFormat
  import opened CaptureReader

  /** A frame that took a source ordinal; its ordinal is its index in the ledger. */
  datatype MvsFrame =
    | Begin(rect: MvsRect, total: u32, body: seq<u8>)
    | Continuation(body: seq<u8>)
    | RejectedEnvelope(candidate: Option<MvsRect>)

  function FrameBody(f: MvsFrame): seq<u8> {
    if f.RejectedEnvelope? then [] else f.body
  }

  ghost function Joined(frames: seq<MvsFrame>): seq<u8> {
    if frames == [] then [] else Joined(frames[..|frames| - 1]) + FrameBody(frames[|frames| - 1])
  }

  /** The frames first..last are a begin frame and its continuations. */
  ghost predicate IsFragmentRun(frames: seq<MvsFrame>, first: int, last: int, rect: MvsRect, total: int) {
    && 0 <= first <= last < |frames|
    && frames[first].Begin?
    && frames[first].rect == rect
    && frames[first].total == total
    && forall k :: first < k <= last ==> frames[k].Continuation?
  }

  ghost predicate MadeOf(record: CaptureRecord, frames: seq<MvsFrame>) {
    && IsFragmentRun(frames, record.first, record.last, record.record.rect, |record.record.payload|)
    && record.record.payload == Joined(frames[record.first..record.last + 1])
  }

  ghost predicate AllMadeOf(records: seq<CaptureRecord>, frames: seq<MvsFrame>) {
    forall k :: 0 <= k < |records| ==> MadeOf(records[k], frames)
  }

  lemma MadeOfGrows(records: seq<CaptureRecord>, frames: seq<MvsFrame>, f: MvsFrame)
    requires AllMadeOf(records, frames)
    ensures AllMadeOf(records, frames + [f])
  {
    forall k | 0 <= k < |records|
      ensures MadeOf(records[k], frames + [f])
    {
      var r := records[k];
      assert MadeOf(r, frames);
      assert (frames + [f])[r.first..r.last + 1] == frames[r.first..r.last + 1];
    }
  }

  /** A begin frame that is the last frame so far is a fragment run of its own. */
  lemma LastFrameAlone(frames: seq<MvsFrame>, k: nat)
    requires k + 1 == |frames|
    ensures frames[k..] == frames[k..k + 1] == [frames[k]]
    ensures Joined(frames[k..]) == FrameBody(frames[k])
    ensures frames[k].Begin? ==> IsFragmentRun(frames, k, k, frames[k].rect, frames[k].total)
  {
    assert [frames[k]][..0] == [];
  }

  lemma JoinedSnoc(frames: seq<MvsFrame>, first: nat, f: MvsFrame)
    requires first <= |frames|
    ensures Joined((frames + [f])[first..]) == Joined(frames[first..]) + FrameBody(f)
  {
    var tail := (frames + [f])[first..];
    assert tail[..|tail| - 1] == frames[first..];
  }

  ghost function RangeStart(records: seq<CaptureRecord>, k: int): int
    requires 0 <= k <= |records|
  {
    if k == 0 then 0 else records[k - 1].last + 1
  }

  /** An accepted tally is exactly contiguous ranges from zero; every range ends before the next begins. */
  lemma {:induction false} TallyTiles(records: seq<CaptureRecord>)
    requires TallyRecords(records).Ok?
    ensures forall k :: 0 <= k < |records| ==> records[k].first == RangeStart(records, k)
    ensures TallyRecords(records).value.expectedSource == RangeStart(records, |records|)
  {
    if records != [] {
      var front := records[..|records| - 1];
      TallyTiles(front);
      forall k | 0 <= k < |records|
        ensures records[k].first == RangeStart(records, k)
      {
        if k < |front| {
          assert front[k].first == RangeStart(front, k);
        }
      }
    }
  }

  /** A record with a known tag that starts where the tally ends extends the tally by its range and its tag. */
  lemma TallySnoc(records: seq<CaptureRecord>, record: CaptureRecord)
    requires TallyRecords(records).Ok?
    requires record.first == TallyRecords(records).value.expectedSource && record.last != MAX_U64
    requires record.record.payload != [] && record.record.payload[0] in {0, 1, 2}
    ensures var tally := TallyRecords(records).value;
            var tag := record.record.payload[0];
            TallyRecords(records + [record]) ==
               Ok(Tally(record.last + 1,
                        tally.type0 + (if tag == 0 then 1 else 0),
                        tally.type1 + (if tag == 1 then 1 else 0),
                        tally.type2 + (if tag == 2 then 1 else 0)))
  {
    assert (records + [record])[..|records|] == records;
  }

  lemma MadeOfSnoc(records: seq<CaptureRecord>, record: CaptureRecord, frames: seq<MvsFrame>)
    requires AllMadeOf(records, frames) && MadeOf(record, frames)
    ensures AllMadeOf(records + [record], frames)
  {
  }
}
