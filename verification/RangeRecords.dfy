/** The two records of an NVTX range, from the callback through the table of open ranges to the decoder. */
module RangeRecords {
  import opened Common
  import opened Utf8
  import opened CaptureStore
  import opened SnapshotProtocol
  import R = NvtxRanges

  const WORD: nat := 0x1_0000_0000

  /** The record of a range's start or end: the identifier is split into two words. */
  function RangeRecord(isEnd: bool, key: R.Key, info: R.Info, timestampNs: nat, pid: nat, tid: nat): (r: Record) {
    Record(timestampNs, if isEnd then 10 else 9, pid, tid, key.id % WORD, key.id / WORD % WORD, key.kind,
           info.startTid, if info.nameComplete then 1 else 0, info.name, [])
  }

  /** The identifier that the decoder puts together. */
  function DecodedId(r: Record): (id: nat) { r.gridX + r.gridY * WORD }

  /** The identifier of a thread's range: the thread and the nesting level. */
  function ThreadRange(tid: nat, level: nat): (id: nat) { tid * WORD + level }

  lemma SplitWords(id: nat)
    requires id < U64
    ensures id % WORD + id / WORD % WORD * WORD == id
  {
    assert id / WORD < WORD;
  }

  /** The thread and level of a range give back the identifier's words, and no two give the same. */
  lemma ThreadRangesDiffer(tid: nat, level: nat, other: nat, otherLevel: nat)
    requires tid < WORD && level < WORD && other < WORD && otherLevel < WORD
    ensures ThreadRange(tid, level) < U64
    ensures ThreadRange(tid, level) == ThreadRange(other, otherLevel) <==> tid == other && level == otherLevel
    ensures ThreadRange(tid, level) == 0 <==> tid == 0 && level == 0
  {
    if ThreadRange(tid, level) == ThreadRange(other, otherLevel) {
      assert (tid - other) * WORD == otherLevel - level;
    }
  }

  /** Both records of a range whose name is UTF-8 pass the decoder, which gets back the identifier, the scope and the
      starting thread, and the longest part of the name that fits. */
  lemma RangeDecodes(isEnd: bool, key: R.Key, startTid: nat, name: Option<CString>, text: seq<Scalar>,
                     timestampNs: nat, pid: nat, tid: nat)
    requires 0 < key.id < U64 && 1 <= key.kind <= 2 && startTid > 0 && timestampNs > 0
    requires name == None || name == Some(Encode(text))
    ensures var r := RangeRecord(isEnd, key, R.Remembered(startTid, name), timestampNs, pid, tid);
      && RecordError(r, true) == None
      && DecodedId(r) == key.id && r.gridZ == key.kind && r.blockX == startTid
      && (name == None ==> r.name == []) && (name.Some? ==> R.LongestStored(text, r.name))
      && (r.blockY == 1 <==> name == None || r.name == name.value)
  {
    hide IsUtf8, Encode, EncodeChar, R.LongestStored;
    var info := R.Remembered(startTid, name);
    R.RememberedTells(startTid, name);
    SplitWords(key.id);
    StoredValid(startTid, name, text);
  }

  lemma StoredValid(startTid: nat, name: Option<CString>, text: seq<Scalar>)
    requires name == None || name == Some(Encode(text))
    ensures IsUtf8(R.Remembered(startTid, name).name)
  {
    hide Encode, EncodeChar, StoredLength;
    if name.Some? {
      StoresLongestPrefix(text);
      ValidIff(R.Remembered(startTid, name).name);
    }
  }
}
