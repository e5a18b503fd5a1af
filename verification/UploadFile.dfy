/** The resumable upload of one file: what survives a crash, what is PUT again, and how the progress
    is counted. The lock per hash makes the runs for one hash follow each other, so the object below
    is the row and the server state of one hash. Every request, table operation and read may fail,
    and a run may be cut off between any two of them. */
module UploadFile {
  import opened Bitmaps
  import opened PartSizes
  import opened UploadLog
  import opened Wrappers

  /** A stored row. Its bytes are kept as base64 text; a text that cannot be decoded is an arbitrary
      choice when the row is read. Upload IDs are numbered in the order the server issues them, and 0
      stands for the empty ID. */
  datatype Row = Row(uploadID: nat, bytes: seq<bv8>)

  /** What the server answers to the request for a new upload, if it does: that it has the file, or a new ID
      and the part size that goes with it. */
  datatype Answer = NoAnswer | HasFile | NewUpload(partSize: int)

  /** Stopped: the run failed or was cut off. */
  datatype Outcome = Uploaded | AlreadyOnServer | Stopped

  /** The parts a row stands for. */
  ghost function PartsOf(row: Row, n: nat): set<nat> {
    IndexSet(Words(row.bytes), n)
  }

  /** The row is the one that the log says, and may be kept. */
  ghost predicate RowInv(row: Option<Row>, log: seq<Event>, n: nat, issued: nat) {
    && RowIn(log) == (if row == None then NoRow else StoredRow(row.value.uploadID, PartsOf(row.value, n)))
    && (row.Some? ==>
          && n <= 64 * |Words(row.value.bytes)|
          && 0 < row.value.uploadID <= issued
          && Keeps(log, row.value.uploadID, PartsOf(row.value, n)))
  }

  /** What was added is no deletion, and its PUTs are of parts from lo up to hi that were not loaded, in
      ascending order and each once. */
  ghost predicate PutsAscend(h: seq<Event>, h': seq<Event>, lo: nat, hi: nat, loaded: set<nat>) {
    && h <= h'
    && (forall i | |h| <= i < |h'| :: !h'[i].Deleted? && (h'[i].Put? ==> lo <= h'[i].part < hi && h'[i].part !in loaded))
    && (forall i, j | |h| <= i < j < |h'| && h'[i].Put? && h'[j].Put? :: h'[i].part < h'[j].part)
  }

  lemma PutsTwice(h0: seq<Event>, h1: seq<Event>, h2: seq<Event>, lo: nat, mid: nat, hi: nat, loaded: set<nat>)
    requires PutsAscend(h0, h1, lo, mid, loaded) && PutsAscend(h1, h2, mid, hi, loaded) && lo <= mid <= hi
    ensures PutsAscend(h0, h2, lo, hi, loaded)
  {
  }

  lemma PutsFewer(h: seq<Event>, h': seq<Event>, lo: nat, hi: nat, more: set<nat>, fewer: set<nat>)
    requires PutsAscend(h, h', lo, hi, more) && fewer <= more
    ensures PutsAscend(h, h', lo, hi, fewer)
  {
  }

  lemma PutsNothing(h: seq<Event>, e: Event, lo: nat, loaded: set<nat>)
    requires !e.Deleted? && !e.Put?
    ensures PutsAscend(h, h + [e], lo, lo, loaded) && PutsAscend(h, h, lo, lo, loaded)
  {
  }

  /** A run that was not cut off before its start PUTs parts that were not loaded, in ascending order and each
      once, and deletes nothing unless right after the server has answered the completion, as the last thing that
      it does. */
  ghost predicate PutsMissing(h: seq<Event>, h': seq<Event>, id: nat, loaded: set<nat>) {
    && h <= h'
    && (forall i | |h| <= i < |h'| && h'[i].Put? :: h'[i].part !in loaded)
    && (forall i, j | |h| <= i < j < |h'| && h'[i].Put? && h'[j].Put? :: h'[i].part < h'[j].part)
    && (forall i | |h| <= i < |h'| && h'[i].Deleted? :: |h| < i == |h'| - 1 && h'[i - 1] == Completed(id))
  }

  /** Every part that was not loaded was PUT. */
  ghost predicate PutsAll(h: seq<Event>, h': seq<Event>, id: nat, n: nat, loaded: set<nat>) {
    h <= h' && forall p: nat | p < n && p !in loaded :: Put(id, p) in h'[|h|..]
  }

  lemma PutsAllSince(h0: seq<Event>, h1: seq<Event>, h2: seq<Event>, id: nat, n: nat, loaded: set<nat>)
    requires h0 <= h1 && PutsAll(h1, h2, id, n, loaded)
    ensures PutsAll(h0, h2, id, n, loaded)
  {
    assert h2[|h0|..] == h1[|h0|..] + h2[|h1|..];
  }

  lemma CompletedSince(h0: seq<Event>, h1: seq<Event>, h2: seq<Event>, id: nat)
    requires h0 <= h1 <= h2
    ensures Completed(id) in h2[|h1|..] ==> Completed(id) in h2[|h0|..]
  {
    assert h2[|h0|..] == h1[|h0|..] + h2[|h1|..];
  }

  lemma OnePutAscends(h: seq<Event>, id: nat, i: nat, marked: set<nat>, h': seq<Event>)
    requires i !in marked
    requires var h1 := h + [Put(id, i)]; h' == h1 || (h1 <= h' && |h'| == |h1| + 1 && h'[|h1|].Stored?)
    ensures PutsAscend(h, h', i, i + 1, marked)
  {
  }

  lemma AscendIsMissing(h: seq<Event>, h1: seq<Event>, h2: seq<Event>, n: nat, id: nat, loaded: set<nat>)
    requires PutsAscend(h, h1, 0, n, loaded) && (h2 == h1 || h2 == h1 + [Complete(id)])
    ensures PutsMissing(h, h2, id, loaded)
  {
  }

  lemma AnsweredIsMissing(h: seq<Event>, h1: seq<Event>, h2: seq<Event>, n: nat, id: nat, loaded: set<nat>)
    requires PutsAscend(h, h1, 0, n, loaded) && h2 == h1 + [Complete(id), Completed(id)]
    ensures PutsMissing(h, h2, id, loaded) && Completed(id) in h2[|h|..]
  {
    assert h2[|h|..][|h1| + 1 - |h|] == Completed(id);
  }

  lemma DeletedIsMissing(h: seq<Event>, h1: seq<Event>, h2: seq<Event>, h3: seq<Event>, n: nat, id: nat, loaded: set<nat>)
    requires PutsAscend(h, h1, 0, n, loaded) && h2 == h1 + [Complete(id), Completed(id)]
    requires h3 == h2 || (h2 <= h3 && |h3| == |h2| + 1 && h3[|h2|].Deleted?)
    ensures PutsMissing(h, h3, id, loaded)
  {
  }

  /** What was PUT since the run began is in what was added since. */
  lemma {:induction false} PutInAdded(before: seq<Event>, log: seq<Event>, e: Event, part: nat)
    requires e.Started? && before + [e] <= log && part in PutIn(log)
    ensures Put(RunID(log), part) in log[|before|..]
    decreases |log|
  {
    var front, last := log[..|log| - 1], log[|log| - 1];
    assert log[|before|] == e;
    if last.Started? {
    } else if last.Put? && last.id == RunID(front) && last.part == part {
      assert log[|before|..][|log| - 1 - |before|] == last;
    } else {
      PutInAdded(before, front, e, part);
      assert log[|before|..] == front[|before|..] + [last];
    }
  }

  /** Progress reports of one run: they never go back and stay within the file size. */
  ghost predicate GoodReports(reports: seq<int>, upTo: int) {
    && (forall i, j | 0 <= i < j < |reports| :: reports[i] <= reports[j])
    && (forall i | 0 <= i < |reports| :: 0 <= reports[i] <= upTo)
  }

  lemma OneMoreReport(reports: seq<int>, upTo: int, r: int)
    requires GoodReports(reports, upTo) && 0 <= upTo <= r
    ensures GoodReports(reports + [r], r)
  {
  }

  /** The parts before part i. */
  function Below(i: nat): set<nat> {
    AllParts(i)
  }

  lemma BelowOneMore(i: nat)
    ensures Below(i + 1) == Below(i) + {i} && i !in Below(i)
  {
  }

  lemma WordsLength(p: seq<bv8>)
    ensures |Words(p)| == |p| / 8
  {
  }

  /** Counting part i as done adds its size unless it was done before. */
  lemma CountPart(sizes: seq<int>, loaded: set<nat>, i: nat)
    requires i < |sizes| && (forall k | 0 <= k < |sizes| :: sizes[k] > 0)
    ensures SumOver(sizes, loaded + Below(i + 1))
         == SumOver(sizes, loaded + Below(i)) + if i in loaded then 0 else sizes[i]
    ensures SumOver(sizes, loaded + Below(i + 1)) <= Sum(sizes)
    ensures 0 <= SumOver(sizes, loaded + Below(i))
  {
    BelowOneMore(i);
    assert loaded + Below(i + 1) == (loaded + Below(i)) + {i};
    SumOverOneMore(sizes, loaded + Below(i), i);
    SumOverBounds(sizes, loaded + Below(i + 1));
    SumOverBounds(sizes, loaded + Below(i));
  }

  lemma StartOfParts(sizes: seq<int>, loaded: set<nat>)
    ensures Below(0) == {} && loaded + Below(0) == loaded && Sum(sizes[..0]) == 0
  {
  }

  lemma MoreRoom(reports: seq<int>, upTo: int, more: int)
    requires GoodReports(reports, upTo) && upTo <= more
    ensures GoodReports(reports, more)
  {
  }

  /** Only storing and deleting change the row. */
  lemma RowKept(row: Option<Row>, log: seq<Event>, e: Event, n: nat, issued: nat, md5s: seq<int>)
    requires RowInv(row, log, n, issued) && !e.Stored? && !e.Deleted?
    ensures RowInv(row, log + [e], n, issued)
  {
    RunOneMore(log, e, md5s);
    if row.Some? {
      KeepsOther(log, e, row.value.uploadID, PartsOf(row.value, n));
    }
    hide RowIn, Keeps, Words, PartsOf;
  }

  /** The marks, the parts loaded or PUT in this run, those read with the expected md5, and the count,
      after i parts. */
  ghost predicate Done(sizes: seq<int>, loaded: set<nat>, i: nat, marked: set<nat>, stored: bool,
                       puts: set<nat>, checked: set<nat>, uploadedSize: int) {
    && marked == loaded + (if stored then Below(i) else {})
    && loaded + Below(i) <= puts
    && Below(i) <= checked
    && uploadedSize == SumOver(sizes, loaded + Below(i))
  }

  lemma DoneRoom(sizes: seq<int>, loaded: set<nat>, i: nat, marked: set<nat>, stored: bool,
                 puts: set<nat>, checked: set<nat>, uploadedSize: int)
    requires Done(sizes, loaded, i, marked, stored, puts, checked, uploadedSize)
    requires i < |sizes| && (forall k | 0 <= k < |sizes| :: sizes[k] > 0)
    ensures 0 <= uploadedSize <= uploadedSize + (if i in marked then 0 else sizes[i]) <= Sum(sizes)
    ensures i in marked ==> i in puts
  {
    CountPart(sizes, loaded, i);
    BelowOneMore(i);
    hide SumOver, Below;
  }

  lemma DoneOneMore(sizes: seq<int>, loaded: set<nat>, i: nat, marked: set<nat>, stored: bool,
                    puts: set<nat>, checked: set<nat>, uploadedSize: int, puts': set<nat>, checked': set<nat>)
    requires Done(sizes, loaded, i, marked, stored, puts, checked, uploadedSize)
    requires i < |sizes| && (forall k | 0 <= k < |sizes| :: sizes[k] > 0)
    requires puts <= puts' && i in puts' && checked <= checked' && i in checked'
    ensures Done(sizes, loaded, i + 1, marked + (if stored then {i} else {}), stored, puts', checked',
                 uploadedSize + (if i in marked then 0 else sizes[i]))
  {
    CountPart(sizes, loaded, i);
    BelowOneMore(i);
    hide SumOver, Below;
  }

  lemma DoneStart(sizes: seq<int>, loaded: set<nat>, stored: bool, puts: set<nat>, checked: set<nat>, uploadedSize: int)
    requires forall k | 0 <= k < |sizes| :: sizes[k] > 0
    requires loaded <= puts && uploadedSize == SumOver(sizes, loaded)
    ensures Done(sizes, loaded, 0, loaded, stored, puts, checked, uploadedSize)
    ensures GoodReports([], uploadedSize)
  {
    StartOfParts(sizes, loaded);
    StartReports(uploadedSize, sizes, loaded);
  }

  lemma DoneAll(sizes: seq<int>, loaded: set<nat>, marked: set<nat>, stored: bool,
                puts: set<nat>, checked: set<nat>, uploadedSize: int)
    requires forall k | 0 <= k < |sizes| :: sizes[k] > 0
    requires Done(sizes, loaded, |sizes|, marked, stored, puts, checked, uploadedSize)
    ensures uploadedSize == Sum(sizes) && AllParts(|sizes|) <= puts && AllParts(|sizes|) <= checked
  {
    AllCounted(sizes, loaded);
    EveryPart(loaded, |sizes|, puts);
  }

  lemma StartReports(uploadedSize: int, sizes: seq<int>, loaded: set<nat>)
    requires forall k | 0 <= k < |sizes| :: sizes[k] > 0
    requires uploadedSize == SumOver(sizes, loaded)
    ensures GoodReports([], uploadedSize) && 0 <= uploadedSize <= Sum(sizes)
  {
    SumOverBounds(sizes, loaded);
  }

  lemma EveryPart(loaded: set<nat>, n: nat, puts: set<nat>)
    requires loaded + Below(n) <= puts
    ensures AllParts(n) <= puts && Below(n) == AllParts(n)
  {
  }

  lemma AllCounted(sizes: seq<int>, loaded: set<nat>)
    requires forall k | 0 <= k < |sizes| :: sizes[k] > 0
    ensures SumOver(sizes, loaded + Below(|sizes|)) == Sum(sizes)
  {
    SumOverBounds(sizes, loaded + Below(|sizes|));
  }

  /** Part i is read from where the parts before it end. */
  ghost predicate Offsets(offsets: seq<int>, sizes: seq<int>) {
    |offsets| <= |sizes| + 1 && forall i | 0 <= i < |offsets| :: offsets[i] == Sum(sizes[..i])
  }

  lemma OneMoreOffset(offsets: seq<int>, sizes: seq<int>, offset: int)
    requires |offsets| < |sizes| && Offsets(offsets + [offset], sizes)
    ensures Offsets(offsets, sizes)
    ensures Offsets(offsets + [offset] + [offset + sizes[|offsets|]], sizes)
  {
    SumPrefix(sizes, |offsets|);
    assert (offsets + [offset])[|offsets|] == offset;
    assert forall i | 0 <= i < |offsets| :: offsets[i] == (offsets + [offset])[i];
  }

  lemma FewerOffsets(offsets: seq<int>, offset: int, sizes: seq<int>)
    requires Offsets(offsets + [offset], sizes)
    ensures Offsets(offsets, sizes)
  {
    assert forall i | 0 <= i < |offsets| :: offsets[i] == (offsets + [offset])[i];
  }

  lemma FirstOffset(sizes: seq<int>)
    ensures Offsets([] + [0], sizes) && Offsets([], sizes)
  {
  }

  lemma SumPrefix(s: seq<int>, i: nat)
    requires i < |s|
    ensures Sum(s[..i + 1]) == Sum(s[..i]) + s[i]
  {
    assert s[..i + 1][..i] == s[..i];
  }

  lemma SumOverPrefix(sizes: seq<int>, parts: set<nat>, i: nat)
    requires i < |sizes|
    ensures SumOver(sizes[..i + 1], parts) == SumOver(sizes[..i], parts) + if i in parts then sizes[i] else 0
  {
    assert sizes[..i + 1][..i] == sizes[..i];
  }

  /** The parts before the one in progress, when n parts have been begun. */
  function Before(n: nat): set<nat> {
    if n == 0 then {} else Below(n - 1)
  }

  lemma LoadedIsMarked(sizes: seq<int>, loaded: set<nat>, i: nat, marked: set<nat>, stored: bool,
                       puts: set<nat>, checked: set<nat>, uploadedSize: int)
    requires Done(sizes, loaded, i, marked, stored, puts, checked, uploadedSize)
    ensures loaded <= marked
  {
  }

  lemma PutsInPart(h0: seq<Event>, h1: seq<Event>, h2: seq<Event>, i: nat, n: nat, loaded: set<nat>, marked: set<nat>)
    requires PutsAscend(h0, h1, 0, i, loaded) && PutsAscend(h1, h2, i, i + 1, marked) && loaded <= marked && i < n
    ensures PutsAscend(h0, h2, 0, i + 1, loaded) && PutsAscend(h0, h2, 0, n, loaded)
  {
    PutsFewer(h1, h2, i, i + 1, marked, loaded);
    PutsTwice(h0, h1, h2, 0, i, i + 1, loaded);
  }

  /** When part i is begun, all parts before it are marked if marks are stored. */
  lemma PartsBefore(sizes: seq<int>, loaded: set<nat>, i: nat, marked: set<nat>, stored: bool,
                    puts: set<nat>, checked: set<nat>, uploadedSize: int)
    requires Done(sizes, loaded, i, marked, stored, puts, checked, uploadedSize) && stored
    ensures Before(i + 1) <= marked
  {
  }

  class Upload {
    const fileSize: int
    const partSize: int
    /** The md5 of each part, computed before the upload. */
    const partMd5s: seq<int>
    /** Without a database nothing is stored. */
    const database: bool
    /** Whether every operation on the table succeeds; otherwise each of them may fail. */
    const tableWorks: bool
    /** Whether every request is answered, every PUT succeeds, the file is read as it was when its md5s were
        computed, and no run is cut off. */
    const serverWorks: bool
    var row: Option<Row>
    ghost var log: seq<Event>
    /** How many upload IDs the server has issued. */
    var issued: nat

    ghost predicate Valid()
      reads this
    {
      ValidWith(log)
    }

    /** The object is consistent with this log. */
    ghost predicate ValidWith(h: seq<Event>)
      reads `row, `issued
    {
      && fileSize > 0 && partSize > 0 && |partMd5s| == PartNum()
      && Safe(h, partMd5s)
      && Issued(h, issued)
      && RowInv(row, h, PartNum(), issued)
      && (!database ==> row == None)
    }

    /** With a working table, the row that this run writes holds exactly these parts. */
    ghost predicate InStep(dbInfo: Option<Row>, parts: set<nat>)
      reads this
    {
      && fileSize > 0 && partSize > 0
      && (tableWorks && dbInfo.Some? ==> row == dbInfo && PartsOf(row.value, PartNum()) == parts)
    }

    /** With a working table, a run that stores its marks has at least these parts in the row. */
    ghost predicate Survives(stores: bool, parts: set<nat>)
      reads this
    {
      && fileSize > 0 && partSize > 0
      && (tableWorks && stores ==> row.Some? && parts <= PartsOf(row.value, PartNum()))
    }

    function PartNum(): nat
      requires fileSize > 0 && partSize > 0
    {
      PartsDivideFile(fileSize, partSize);
      GetPartNum(fileSize, partSize)
    }

    constructor (fileSize: int, partSize: int, partMd5s: seq<int>, database: bool, tableWorks: bool, serverWorks: bool)
      requires fileSize > 0 && partSize > 0 && |partMd5s| == GetPartNum(fileSize, partSize)
      ensures Valid() && row == None && log == [] && issued == 0
      ensures this.fileSize == fileSize && this.partSize == partSize && this.partMd5s == partMd5s
      ensures this.database == database && this.tableWorks == tableWorks && this.serverWorks == serverWorks
    {
      this.fileSize, this.partSize, this.partMd5s := fileSize, partSize, partMd5s;
      this.database, this.tableWorks, this.serverWorks := database, tableWorks, serverWorks;
      row, log, issued := None, [], 0;
    }

    /** Everything a run has done so far in memory is consistent with what is on the server. */
    ghost predicate Running(id: nat, parts: set<nat>, dbInfo: Option<Row>)
      reads this
    {
      && Valid()
      && id <= issued
      && Keeps(log, id, parts)
      && (dbInfo.Some? ==> dbInfo.value.uploadID == id > 0)
    }

    /** The row is there and is read. */
    predicate Reads(readable: bool)
      reads this
    {
      database && row.Some? && (readable || tableWorks)
    }

    /** The row that is read can be used: it can be decoded, has marks, the file has more than one part, and
        it has not expired. */
    predicate MeetsUsable(readable: bool, decoded: bool, expired: bool)
      requires fileSize > 0 && partSize > 0
      reads this
    {
      Reads(readable) && decoded && |row.value.bytes| > 0 && PartNum() > 1 && !expired
    }

    predicate MeetsUnusable(readable: bool, decoded: bool, expired: bool)
      requires fileSize > 0 && partSize > 0
      reads this
    {
      Reads(readable) && !MeetsUsable(readable, decoded, expired)
    }

    /** A run may go on with what the row holds. */
    lemma RowCanGoOn()
      requires Valid() && row.Some?
      ensures var parts := IndexSet(Words(row.value.bytes), PartNum());
              && 0 < row.value.uploadID <= issued && PartNum() <= 64 * (|row.value.bytes| / 8)
              && parts == PartsOf(row.value, PartNum()) == PartsIn(RowIn(log), row.value.uploadID)
              && Running(row.value.uploadID, parts, row) && InStep(row, parts)
    {
      WordsLength(row.value.bytes);
      hide Safe, Keeps, Issued, IndexSet, Words, RowIn;
    }

    /** getUpload: resume from the stored row when it can be read and used, with its upload ID and its marks;
        otherwise ask the server for a new one. A row that is read and cannot be used is deleted, and this run
        then goes on with the empty upload ID and without a row; that is the only way to get the empty ID. If
        the deletion fails the run ends. */
    method GetUpload(readable: bool, decoded: bool, expired: bool, answer: Answer)
      returns (ok: bool, onServer: bool, bitmap: Bitmap, dbInfo: Option<Row>, uploadID: nat, serverPartSize: int)
      requires Valid()
      modifies this`row, this`log, this`issued
      ensures fresh(bitmap) && fresh(bitmap.data)
      ensures Valid() && old(log) <= log
      ensures OneID(old(log), log, uploadID)
      ensures forall e <- log[|old(log)|..] :: e.Stored? || e.Deleted?
      ensures ok && !onServer ==>
                && bitmap.size == PartNum() && bitmap.Covers()
                && Running(uploadID, bitmap.Elements(), dbInfo)
                && InStep(dbInfo, bitmap.Elements())
                && bitmap.Elements() == PartsIn(RowIn(log), uploadID)
                && (tableWorks && row.Some? ==> dbInfo.Some?)
                && (uploadID == 0 <==> old(MeetsUnusable(readable, decoded, expired)))
                && (old(Reads(readable)) ==> serverPartSize == partSize)
      ensures old(MeetsUsable(readable, decoded, expired)) ==>
                && ok && !onServer && row == old(row) && log == old(log) && issued == old(issued)
                && dbInfo == old(row) && uploadID == old(row).value.uploadID > 0
                && bitmap.Elements() == PartsOf(old(row).value, PartNum())
      ensures old(MeetsUnusable(readable, decoded, expired)) ==>
                && !onServer && uploadID == 0 && dbInfo == None && issued == old(issued) && bitmap.Elements() == {}
                && (ok <==> row == None)
                && (!ok ==> row == old(row) && log == old(log))
      ensures old(MeetsUnusable(readable, decoded, expired)) && tableWorks ==> ok
      ensures !old(Reads(readable)) ==> (ok <==> !answer.NoAnswer?) && (onServer <==> answer.HasFile?)
      ensures !old(Reads(readable)) && !answer.NewUpload? ==> log == old(log) && row == old(row) && issued == old(issued)
      ensures !old(Reads(readable)) && answer.NewUpload? ==>
                && serverPartSize == answer.partSize
                && uploadID == old(issued) + 1 == issued && bitmap.Elements() == {} && dbInfo.Some? == database
                && (tableWorks && database ==> row == dbInfo)
                && (!database || old(row).Some? ==> row == old(row))
    {
      PartsDivideFile(fileSize, partSize);
      NothingKeptForNewID(log, issued, 0);
      hide Safe, Keeps, Issued, IndexSet, Words, Bytes, PartsOf, RowIn;
      var partNum := GetPartNum(fileSize, partSize);
      ok, onServer, dbInfo, uploadID, serverPartSize := false, false, None, 0, partSize;
      bitmap := new Bitmap.New(partNum);
      if database && row.Some? && (readable || tableWorks) {
        dbInfo := row;
        var bitmapBytes := dbInfo.value.bytes;
        if !decoded || |bitmapBytes| == 0 || partNum <= 1 || expired {
          dbInfo := None;
          ok := DeleteRow();
          return;
        }
        RowCanGoOn();
        WordsLength(bitmapBytes);
        bitmap := new Bitmap.Parse(bitmapBytes, partNum);
        uploadID := dbInfo.value.uploadID;
        ok := true;
        return;
      }
      ok, onServer, dbInfo, uploadID, serverPartSize := StartUpload(bitmap, answer);
    }

    /** The part of getUpload that asks the server for a new upload. */
    method StartUpload(bitmap: Bitmap, answer: Answer)
      returns (ok: bool, onServer: bool, dbInfo: Option<Row>, uploadID: nat, serverPartSize: int)
      requires Valid() && bitmap.size == PartNum() && bitmap.Covers() && bitmap.Elements() == {}
      requires database && row.Some? ==> !tableWorks
      modifies this`row, this`log, this`issued
      ensures Valid() && old(log) <= log && OneID(old(log), log, uploadID)
      ensures forall e <- log[|old(log)|..] :: e.Stored?
      ensures (ok <==> !answer.NoAnswer?) && (onServer <==> answer.HasFile?)
      ensures !answer.NewUpload? ==> log == old(log) && row == old(row) && issued == old(issued)
      ensures answer.NewUpload? ==>
                && Running(uploadID, {}, dbInfo) && InStep(dbInfo, {}) && PartsIn(RowIn(log), uploadID) == {}
                && serverPartSize == answer.partSize
                && uploadID == old(issued) + 1 == issued && dbInfo.Some? == database
                && (tableWorks && database ==> row == dbInfo)
                && (!database || old(row).Some? ==> row == old(row))
    {
      NothingKeptForNewID(log, issued, issued + 1);
      hide Safe, Keeps, IndexSet, Words, Bytes, RowIn;
      ok, onServer, dbInfo, uploadID, serverPartSize := false, false, None, 0, partSize;
      if answer.NoAnswer? {
        return;
      }
      ok, onServer := true, answer.HasFile?;
      if onServer {
        return;
      }
      uploadID, serverPartSize := issued + 1, answer.partSize;
      issued := issued + 1;
      if database {
        dbInfo := InsertRow(uploadID, bitmap);
      }
    }

    method DeleteRow() returns (ok: bool)
      requires Valid() && row.Some?
      modifies this`row, this`log
      ensures Valid()
      ensures if ok then row == None && log == old(log) + [Deleted(old(row).value.uploadID)] else row == old(row) && log == old(log)
      ensures tableWorks ==> ok
      ensures forall id, parts :: old(Keeps(log, id, parts)) ==> Keeps(log, id, parts)
    {
      ok := *;
      ok := ok || tableWorks;
      if ok {
        ghost var e := Deleted(row.value.uploadID);
        QuietIsSafe(log, partMd5s, e);
        RunOneMore(log, e, partMd5s);
        forall id, parts | Keeps(log, id, parts)
          ensures Keeps(log + [e], id, parts)
        {
          KeepsOther(log, e, id, parts);
        }
        hide Safe, Keeps, RowIn;
        log := log + [e];
        row := None;
      }
    }

    /** The new row, with an empty bitmap, is inserted; the insertion may fail, and does when a row is
        already there. */
    method InsertRow(uploadID: nat, bitmap: Bitmap) returns (dbInfo: Option<Row>)
      requires Valid() && database && uploadID == issued > 0 && Keeps(log, uploadID, {})
      requires row.Some? ==> row.value.uploadID != uploadID
      requires bitmap.size == PartNum() && bitmap.Covers() && bitmap.Elements() == {}
      modifies this`row, this`log
      ensures Valid() && old(log) <= log && Keeps(log, uploadID, {}) && OneID(old(log), log, uploadID)
      ensures dbInfo.Some? && dbInfo.value.uploadID == uploadID
      ensures old(row) == None ==> InStep(dbInfo, {})
      ensures PartsIn(RowIn(log), uploadID) == {}
      ensures if old(row).Some? then row == old(row) else row == None || row == dbInfo
      ensures forall e <- log[|old(log)|..] :: e.Stored?
    {
      var bytes := bitmap.Serialize();
      dbInfo := Some(Row(uploadID, bytes[..]));
      StoreIsSafe(log, partMd5s, uploadID, {});
      RunOneMore(log, Stored(uploadID, {}), partMd5s);
      hide Safe, Keeps, IndexSet, Words, Bytes, RowIn;
      var inserted: bool := *;
      if (inserted || tableWorks) && row == None {
        row := dbInfo;
        log := log + [Stored(uploadID, {})];
      }
    }

    /** UpdateUpload writes the row of this hash when there is one, whatever upload ID it had. */
    method UpdateRow(uploadID: nat, bitmap: Bitmap) returns (dbInfo: Option<Row>)
      requires uploadID > 0 && Running(uploadID, bitmap.Elements(), Some(Row(uploadID, [])))
      requires bitmap.size == PartNum() && bitmap.Covers()
      modifies this`row, this`log
      ensures Running(uploadID, bitmap.Elements(), dbInfo) && dbInfo.Some?
      ensures Continues(old(log), log, partMd5s) && OneID(old(log), log, uploadID)
      ensures old(row).Some? ==> InStep(dbInfo, bitmap.Elements())
      ensures log == old(log) || (old(log) <= log && |log| == |old(log)| + 1 && log[|old(log)|].Stored?)
      ensures row == None <==> old(row) == None
    {
      var bytes := bitmap.Serialize();
      dbInfo := Some(Row(uploadID, bytes[..]));
      ghost var e := Stored(uploadID, bitmap.Elements());
      StoreIsSafe(log, partMd5s, uploadID, bitmap.Elements());
      RunOneMore(log, e, partMd5s);
      ContinuesOneMore(log, e, partMd5s);
      hide Safe, Keeps, IndexSet, Words, Bytes, RowIn, Continues;
      var updated: bool := *;
      if (updated || tableWorks) && row.Some? {
        row := dbInfo;
        log := log + [e];
      }
    }

    /** The signature and the PUT of one part. While the part is read the progress is reported; the
        request may fail at any point, and the server may answer before it has read everything. */
    method SendPart(i: nat, uploadID: nat, size: int, uploadedSize: int, ghost reports0: seq<int>)
      returns (sent: bool, read: int, ghost reports: seq<int>)
      requires size > 0 && uploadedSize >= 0 && GoodReports(reports0, uploadedSize)
      modifies this`log
      ensures log == if sent then old(log) + [Put(uploadID, i)] else old(log)
      ensures 0 <= read <= size
      ensures GoodReports(reports, uploadedSize + size)
      ensures reports0 <= reports && (read > 0 ==> reports != [] && reports[|reports| - 1] == uploadedSize + read)
      ensures serverWorks ==> sent && read == size
    {
      sent, read, reports := false, 0, reports0;
      var signed: bool := *;
      if !signed && !serverWorks {
        return;
      }
      var more: bool := *;
      while (more || serverWorks) && read < size
        invariant 0 <= read <= size
        invariant GoodReports(reports, uploadedSize + read) && log == old(log)
        invariant reports0 <= reports && (read > 0 ==> reports != [] && reports[|reports| - 1] == uploadedSize + read)
        decreases size - read
      {
        var n :| 1 <= n <= size - read;
        OneMoreReport(reports, uploadedSize + read, uploadedSize + read + n);
        read := read + n;
        reports := reports + [uploadedSize + read];
        more := *;
      }
      sent := *;
      sent := sent || serverWorks;
      if sent {
        log := log + [Put(uploadID, i)];
      }
    }

    /** The md5 of what was read of a part; it is not the expected one when the part was not read to its
        end. */
    method Md5OfPart(i: nat, uploadID: nat, read: int, size: int) returns (md5val: int)
      requires i < |partMd5s|
      modifies this`log
      ensures log == old(log) + [Read(uploadID, i, md5val)]
      ensures read < size ==> md5val != partMd5s[i]
      ensures serverWorks && read == size ==> md5val == partMd5s[i]
    {
      md5val := *;
      if serverWorks {
        md5val := partMd5s[i];
      }
      if read < size && md5val == partMd5s[i] {
        md5val := md5val + 1;
      }
      log := log + [Read(uploadID, i, md5val)];
    }

    /** The sizes of the parts that are already set. */
    method CountUploaded(partSizes: array<int>, bitmap: Bitmap) returns (uploadedSize: int)
      requires bitmap.size == partSizes.Length && bitmap.Covers()
      requires Sum(partSizes[..]) == fileSize
      ensures uploadedSize == SumOver(partSizes[..], bitmap.Elements())
    {
      hide IndexSet;
      ghost var sizes := partSizes[..];
      uploadedSize := fileSize;
      for i := 0 to partSizes.Length
        invariant uploadedSize == fileSize - Sum(sizes[..i]) + SumOver(sizes[..i], bitmap.Elements())
      {
        SumPrefix(sizes, i);
        SumOverPrefix(sizes, bitmap.Elements(), i);
        var uploaded := bitmap.Get(i);
        if !uploaded {
          uploadedSize := uploadedSize - partSizes[i];
        }
      }
      assert sizes[..|sizes|] == sizes;
    }

    /** One part that is not set: PUT it, mark it, and store the marks. Returns false when the run ends
        here, by a failure or by being cut off. */
    method PutPart(i: nat, size: int, uploadID: nat, bitmap: Bitmap, dbInfo0: Option<Row>,
                   uploadedSize0: int, ghost reports0: seq<int>)
      returns (ok: bool, read: int, uploadedSize: int, dbInfo: Option<Row>, ghost reports: seq<int>)
      requires Running(uploadID, bitmap.Elements(), dbInfo0) && InStep(dbInfo0, bitmap.Elements())
      requires RunID(log) == uploadID
      requires bitmap.size == PartNum() && bitmap.Covers() && i < bitmap.size && i !in bitmap.Elements()
      requires size > 0 && uploadedSize0 >= 0 && GoodReports(reports0, uploadedSize0)
      modifies this`row, this`log, bitmap.data
      ensures Valid() && GoodReports(reports, uploadedSize0 + size)
      ensures Continues(old(log), log, partMd5s) && OneID(old(log), log, uploadID)
      ensures PutsAscend(old(log), log, i, i + 1, old(bitmap.Elements()))
      ensures Survives(dbInfo0.Some?, old(bitmap.Elements()))
      ensures dbInfo0 == None ==> row == old(row)
      ensures ok ==>
                && Running(uploadID, bitmap.Elements(), dbInfo) && dbInfo.Some? == dbInfo0.Some?
                && InStep(dbInfo, bitmap.Elements())
                && i in PutIn(log)
                && bitmap.Elements() == old(bitmap.Elements()) + (if dbInfo.Some? then {i} else {})
                && uploadedSize == uploadedSize0 + size
                && 0 <= read <= size
      ensures serverWorks ==> ok && read == size
    {
      hide Safe, Keeps, IndexSet, Words, Bytes, PutIn, GoodReports, RowIn, RowInv, Continues, OneID, Issued;
      ghost var h := log;
      OnePut(i, uploadID, bitmap.Elements(), dbInfo0);
      ok, uploadedSize, dbInfo := false, uploadedSize0, dbInfo0;
      var sent;
      sent, read, reports := SendPart(i, uploadID, size, uploadedSize0, reports0);
      if !sent {
        return;
      }
      uploadedSize := uploadedSize + size;
      OnePutAscends(h, uploadID, i, bitmap.Elements(), log);
      var cutOff: bool := *;
      if cutOff && !serverWorks {
        return;
      }
      if dbInfo.Some? {
        ghost var h1 := log;
        dbInfo := MarkPart(i, uploadID, bitmap, dbInfo);
        ContinuesTwice(h, h1, log, partMd5s);
        OneIDTwice(h, h1, log, uploadID);
        InPutIn(h1, log, partMd5s, i);
      }
      OnePutAscends(h, uploadID, i, old(bitmap.Elements()), log);
      ok := *;
      ok := ok || serverWorks;
    }

    /** What a successful PUT of a part that is not marked leaves true. */
    lemma OnePut(i: nat, uploadID: nat, parts: set<nat>, dbInfo: Option<Row>)
      requires Running(uploadID, parts, dbInfo) && RunID(log) == uploadID && i !in parts
      ensures var after := log + [Put(uploadID, i)];
              && Safe(after, partMd5s) && Issued(after, issued) && RowInv(row, after, PartNum(), issued)
              && Keeps(after, uploadID, parts) && Keeps(after, uploadID, parts + {i})
              && Continues(log, after, partMd5s) && OneID(log, after, uploadID) && i in PutIn(after)
      ensures Continues(log, log, partMd5s) && OneID(log, log, uploadID)
    {
      var e := Put(uploadID, i);
      PutIsSafe(log, partMd5s, uploadID, parts, i);
      ContinuesOneMore(log, e, partMd5s);
      ContinuesNothing(log, partMd5s);
      RunOneMore(log, e, partMd5s);
      RowKept(row, log, e, PartNum(), issued, partMd5s);
      hide Safe, Keeps, PutIn, RowIn, RowInv, Continues, RunID, LoadedIn, MatchedIn;
    }

    /** Mark a part that has been PUT, and store the marks. */
    method MarkPart(i: nat, uploadID: nat, bitmap: Bitmap, dbInfo0: Option<Row>) returns (dbInfo: Option<Row>)
      requires Running(uploadID, bitmap.Elements(), dbInfo0) && dbInfo0.Some? && InStep(dbInfo0, bitmap.Elements())
      requires bitmap.size == PartNum() && bitmap.Covers() && i < bitmap.size
      requires Keeps(log, uploadID, bitmap.Elements() + {i})
      modifies this`row, this`log, bitmap.data
      ensures Running(uploadID, bitmap.Elements(), dbInfo) && dbInfo.Some? && InStep(dbInfo, bitmap.Elements())
      ensures bitmap.Elements() == old(bitmap.Elements()) + {i}
      ensures Survives(true, old(bitmap.Elements()))
      ensures Continues(old(log), log, partMd5s) && OneID(old(log), log, uploadID)
      ensures log == old(log) || (old(log) <= log && |log| == |old(log)| + 1 && log[|old(log)|].Stored?)
      ensures row == None <==> old(row) == None
    {
      hide Safe, Keeps, IndexSet, Words, Bytes, RowIn, RowInv, Continues, OneID, Issued;
      bitmap.Set(i);
      dbInfo := UpdateRow(uploadID, bitmap);
    }

    /** One turn of the part loop: a part that is set is read again, any other is PUT; then the md5 of
        what was read is compared. */
    method DoPart(i: nat, currentPartSize: int, uploadID: nat, bitmap: Bitmap, dbInfo0: Option<Row>,
                  uploadedSize0: int, ghost reports0: seq<int>)
      returns (ok: bool, read: int, uploadedSize: int, dbInfo: Option<Row>, ghost reports: seq<int>)
      requires Running(uploadID, bitmap.Elements(), dbInfo0) && InStep(dbInfo0, bitmap.Elements())
      requires RunID(log) == uploadID
      requires bitmap.size == PartNum() && bitmap.Covers() && i < bitmap.size
      requires currentPartSize > 0 && uploadedSize0 >= 0 && GoodReports(reports0, uploadedSize0)
      modifies this`row, this`log, bitmap.data
      ensures Valid()
      ensures Continues(old(log), log, partMd5s) && OneID(old(log), log, uploadID)
      ensures var total := uploadedSize0 + if i in old(bitmap.Elements()) then 0 else currentPartSize;
              GoodReports(reports, total) && (ok ==> uploadedSize == total)
      ensures PutsAscend(old(log), log, i, i + 1, old(bitmap.Elements()))
      ensures Survives(dbInfo0.Some?, old(bitmap.Elements()))
      ensures dbInfo0 == None ==> row == old(row)
      ensures ok ==>
                && Running(uploadID, bitmap.Elements(), dbInfo) && dbInfo.Some? == dbInfo0.Some?
                && InStep(dbInfo, bitmap.Elements())
                && (i in old(bitmap.Elements()) || i in PutIn(log))
                && i in MatchedIn(log, partMd5s)
                && bitmap.Elements() == old(bitmap.Elements()) + (if dbInfo.Some? then {i} else {})
                && read == currentPartSize
      ensures serverWorks ==> ok
    {
      ContinuesNothing(log, partMd5s);
      hide Safe, IndexSet, Words, Bytes, GoodReports, RowInv, RowIn, PutIn, MatchedIn, Keeps, Continues, Issued;
      ghost var h := log;
      read, uploadedSize, dbInfo, reports := currentPartSize, uploadedSize0, dbInfo0, reports0;
      var set_ := bitmap.Get(i);
      if set_ {
        ok := *;
        ok := ok || serverWorks;
      } else {
        ok, read, uploadedSize, dbInfo, reports :=
          PutPart(i, currentPartSize, uploadID, bitmap, dbInfo, uploadedSize, reports);
      }
      if !ok {
        return;
      }
      ghost var h1 := log;
      var md5val := CheckedRead(i, uploadID, read, currentPartSize, bitmap, dbInfo);
      ContinuesTwice(h, h1, log, partMd5s);
      PutsNothing(h1, log[|h1|], i + 1, old(bitmap.Elements()));
      PutsTwice(h, h1, log, i, i + 1, i + 1, old(bitmap.Elements()));
      InPutIn(h1, log, partMd5s, i);
      if md5val != partMd5s[i] {
        ok := false;
      }
    }

    /** Reading the md5 disturbs nothing. */
    method CheckedRead(i: nat, uploadID: nat, read: int, size: int, bitmap: Bitmap, dbInfo: Option<Row>) returns (md5val: int)
      requires Running(uploadID, bitmap.Elements(), dbInfo) && i < PartNum()
      modifies this`log
      ensures Running(uploadID, bitmap.Elements(), dbInfo)
      ensures Continues(old(log), log, partMd5s) && OneID(old(log), log, uploadID)
      ensures log == old(log) + [Read(uploadID, i, md5val)]
      ensures md5val == partMd5s[i] ==> i in MatchedIn(log, partMd5s)
      ensures read < size ==> md5val != partMd5s[i]
      ensures serverWorks && read == size ==> md5val == partMd5s[i]
    {
      ghost var h := log;
      md5val := Md5OfPart(i, uploadID, read, size);
      ghost var e := Read(uploadID, i, md5val);
      QuietIsSafe(h, partMd5s, e);
      ContinuesOneMore(h, e, partMd5s);
      RunOneMore(h, e, partMd5s);
      RowKept(row, h, e, PartNum(), issued, partMd5s);
      KeepsOther(h, e, uploadID, bitmap.Elements());
      hide Safe, Keeps, IndexSet, Words, Bytes, MatchedIn, RowIn, RowInv, Continues;
    }

    lemma StillThere(stores: bool, marked: set<nat>, i: nat)
      requires Survives(stores, marked) && (stores ==> Before(i + 1) <= marked)
      ensures Survives(stores, Before(i + 1))
    {
    }

    lemma AllThere(sizes: seq<int>, loaded: set<nat>, marked: set<nat>, dbInfo: Option<Row>,
                   puts: set<nat>, checked: set<nat>, uploadedSize: int)
      requires Done(sizes, loaded, |sizes|, marked, dbInfo.Some?, puts, checked, uploadedSize)
      requires InStep(dbInfo, marked)
      ensures Survives(dbInfo.Some?, Before(|sizes|))
    {
    }

    lemma BeforeParts(sizes: seq<int>, loaded: set<nat>, dbInfo: Option<Row>, uploadID: nat, uploadedSize: int)
      requires Running(uploadID, loaded, dbInfo) && LoadedIn(log) == loaded
      requires sizes == SizesOf(fileSize, partSize) && uploadedSize == SumOver(sizes, loaded)
      ensures |sizes| == PartNum() == |partMd5s| && Sum(sizes) == fileSize
      ensures forall k | 0 <= k < |sizes| :: sizes[k] > 0
      ensures Valid() && uploadID <= issued
      ensures Done(sizes, loaded, 0, loaded, dbInfo.Some?, LoadedIn(log) + PutIn(log), MatchedIn(log, partMd5s), uploadedSize)
      ensures GoodReports([], uploadedSize) && Offsets([] + [0], sizes)
      ensures Continues(log, log, partMd5s) && OneID(log, log, uploadID) && PutsAscend(log, log, 0, 0, loaded)
    {
      PartsDivideFile(fileSize, partSize);
      ContinuesNothing(log, partMd5s);
      hide SizesOf, Continues;
      DoneStart(sizes, loaded, dbInfo.Some?, LoadedIn(log) + PutIn(log), MatchedIn(log, partMd5s), uploadedSize);
      FirstOffset(sizes);
    }

    /** The part loop: part i is read again when it is set, and PUT otherwise; then its md5 is compared. */
    method UploadParts(partSizes: array<int>, bitmap: Bitmap, dbInfo0: Option<Row>, uploadID: nat, uploadedSize0: int)
      returns (ok: bool, uploadedSize: int, dbInfo: Option<Row>, ghost offsets: seq<int>, ghost reports: seq<int>)
      requires Running(uploadID, bitmap.Elements(), dbInfo0) && InStep(dbInfo0, bitmap.Elements())
      requires RunID(log) == uploadID && LoadedIn(log) == bitmap.Elements()
      requires bitmap.size == PartNum() && bitmap.Covers()
      requires partSizes[..] == SizesOf(fileSize, partSize) && partSizes as object != bitmap.data
      requires uploadedSize0 == SumOver(partSizes[..], bitmap.Elements())
      modifies this`row, this`log, bitmap.data
      ensures Valid() && OneID(old(log), log, uploadID)
      ensures PutsAscend(old(log), log, 0, PartNum(), old(bitmap.Elements()))
      ensures Continues(old(log), log, partMd5s)
      ensures GoodReports(reports, fileSize)
      ensures |offsets| <= PartNum() && Offsets(offsets, SizesOf(fileSize, partSize))
      ensures Survives(dbInfo0.Some?, Before(|offsets|))
      ensures dbInfo0 == None ==> row == old(row)
      ensures ok ==>
                && uploadedSize == fileSize && |offsets| == PartNum() && uploadID <= issued
                && WholeRun(log, uploadID, partMd5s)
                && dbInfo.Some? == dbInfo0.Some?
      ensures serverWorks ==> ok
    {
      hide *;
      ghost var sizes, loaded := partSizes[..], bitmap.Elements();
      BeforeParts(sizes, loaded, dbInfo0, uploadID, uploadedSize0);
      ok, uploadedSize, dbInfo := false, uploadedSize0, dbInfo0;
      offsets, reports := [], [];
      var offset := 0;
      for i := 0 to partSizes.Length
        invariant Valid() && Running(uploadID, bitmap.Elements(), dbInfo)
        invariant Continues(old(log), log, partMd5s) && OneID(old(log), log, uploadID)
        invariant PutsAscend(old(log), log, 0, i, loaded)
        invariant RunID(log) == uploadID && LoadedIn(log) == loaded
        invariant dbInfo.Some? == dbInfo0.Some?
        invariant Done(sizes, loaded, i, bitmap.Elements(), dbInfo0.Some?, LoadedIn(log) + PutIn(log),
                       MatchedIn(log, partMd5s), uploadedSize)
        invariant partSizes[..] == sizes
        invariant InStep(dbInfo, bitmap.Elements())
        invariant dbInfo0 == None ==> row == old(row)
        invariant |offsets| == i && Offsets(offsets + [offset], sizes)
        invariant GoodReports(reports, uploadedSize)
      {
        OneMoreOffset(offsets, sizes, offset);
        offsets := offsets + [offset];
        ghost var h, before, size0 := log, bitmap.Elements(), uploadedSize;
        ghost var puts, checked := LoadedIn(log) + PutIn(log), MatchedIn(log, partMd5s);
        DoneRoom(sizes, loaded, i, before, dbInfo0.Some?, puts, checked, size0);
        ghost var total := uploadedSize + (if i in before then 0 else sizes[i]);
        LoadedIsMarked(sizes, loaded, i, before, dbInfo0.Some?, puts, checked, size0);
        if dbInfo0.Some? {
          PartsBefore(sizes, loaded, i, before, true, puts, checked, size0);
        }
        var currentPartSize := partSizes[i];
        var done, read;
        done, read, uploadedSize, dbInfo, reports :=
          DoPart(i, currentPartSize, uploadID, bitmap, dbInfo, uploadedSize, reports);
        ContinuesTwice(old(log), h, log, partMd5s);
        OneIDTwice(old(log), h, log, uploadID);
        PutsInPart(old(log), h, log, i, partSizes.Length, loaded, before);
        ContinuesParts(h, log, partMd5s);
        if !done {
          StillThere(dbInfo0.Some?, before, i);
          MoreRoom(reports, total, fileSize);
          return;
        }
        DoneOneMore(sizes, loaded, i, before, dbInfo0.Some?, puts, checked, size0,
                    LoadedIn(log) + PutIn(log), MatchedIn(log, partMd5s));
        offset := offset + read;
      }
      FewerOffsets(offsets, offset, sizes);
      AllThere(sizes, loaded, bitmap.Elements(), dbInfo, LoadedIn(log) + PutIn(log), MatchedIn(log, partMd5s), uploadedSize);
      DoneAll(sizes, loaded, bitmap.Elements(), dbInfo0.Some?, LoadedIn(log) + PutIn(log), MatchedIn(log, partMd5s), uploadedSize);
      DoneIsWhole(uploadID, loaded, bitmap.Elements(), dbInfo, sizes, uploadedSize);
      ok := true;
    }

    /** After the last part the run is whole. */
    lemma DoneIsWhole(uploadID: nat, loaded: set<nat>, marked: set<nat>, dbInfo: Option<Row>, sizes: seq<int>, uploadedSize: int)
      requires Running(uploadID, marked, dbInfo) && RunID(log) == uploadID && LoadedIn(log) == loaded
      requires Done(sizes, loaded, |sizes|, marked, dbInfo.Some?, LoadedIn(log) + PutIn(log), MatchedIn(log, partMd5s), uploadedSize)
      requires |sizes| == |partMd5s|
      requires AllParts(|sizes|) <= LoadedIn(log) + PutIn(log) && AllParts(|sizes|) <= MatchedIn(log, partMd5s)
      ensures WholeRun(log, uploadID, partMd5s) && uploadID <= issued
    {
      PutInRun(log);
      hide PutsOf, Safe, RowInv, Issued, PutIn, LoadedIn, MatchedIn, RunID, AllParts, SumOver;
    }

    /** One run of UploadFile. Whatever happens, the table and the server are left consistent; the
        offsets at which the parts were read are the sums of the sizes before them; the progress never
        goes back; and a run that completes has counted the whole file. With a working table a run that
        stops loses no part but the one in progress: all parts before it are in the row, and one that completes
        leaves no row. A run that meets a usable row goes on with its upload ID, PUTs only parts that the row
        does not have, each once, and deletes nothing before the completion. A run uses one upload ID, which is
        empty exactly when the row it met could not be used; such a run stores nothing and leaves no row, unless
        it could not even delete the one it met. A run that meets no row uses a new ID, and nothing is uploaded
        when the server does not answer, has the file, or names another part size. */
    method Run(readable: bool, decoded: bool, expired: bool, answer: Answer)
      returns (outcome: Outcome, uploadedSize: int, ghost id: nat, ghost offsets: seq<int>, ghost reports: seq<int>)
      requires Valid()
      modifies this`row, this`log, this`issued
      ensures Valid() && OneID(old(log), log, id)
      ensures GoodReports(reports, fileSize)
      ensures |offsets| <= PartNum() && Offsets(offsets, SizesOf(fileSize, partSize))
      ensures outcome == Uploaded ==>
                && uploadedSize == fileSize && |offsets| == PartNum()
                && Completed(id) in log[|old(log)|..]
                && (tableWorks ==> row == None)
      ensures tableWorks && row.Some? ==> Before(|offsets|) <= PartsOf(row.value, PartNum())
      ensures old(MeetsUsable(readable, decoded, expired)) ==>
                && outcome != AlreadyOnServer && id == old(row).value.uploadID && issued == old(issued)
                && PutsMissing(old(log), log, id, PartsOf(old(row).value, PartNum()))
                && (outcome == Uploaded ==> PutsAll(old(log), log, id, PartNum(), PartsOf(old(row).value, PartNum())))
      ensures old(MeetsUnusable(readable, decoded, expired)) ==>
                && id == 0
                && (row == None || (outcome == Stopped && row == old(row) && log == old(log)))
                && forall i | |old(log)| <= i < |log| :: !log[i].Stored?
      ensures !old(MeetsUnusable(readable, decoded, expired)) && (exists e <- log[|old(log)|..] :: e.Put? || e.Complete?) ==> id > 0
      ensures !old(Reads(readable)) ==>
                && (outcome == AlreadyOnServer <==> answer.HasFile?)
                && (!answer.NewUpload? ==> log == old(log) && row == old(row) && issued == old(issued))
                && (answer.NewUpload? ==> id == old(issued) + 1)
                && (!answer.NewUpload? || answer.partSize != partSize ==>
                      outcome != Uploaded && forall e <- log[|old(log)|..] :: e.Stored? || e.Deleted?)
                && (outcome == Uploaded ==> PutsAll(old(log), log, id, PartNum(), {}))
      ensures serverWorks ==>
                if old(Reads(readable)) then outcome == Uploaded || (!tableWorks && old(MeetsUnusable(readable, decoded, expired)))
                else outcome == Uploaded || answer != NewUpload(partSize)
    {
      outcome, uploadedSize, id, offsets, reports := Stopped, 0, 0, [], [];
      PartsDivideFile(fileSize, partSize);
      FirstOffset(SizesOf(fileSize, partSize));
      assert GoodReports([], fileSize);
      hide Safe, Keeps, IndexSet, Words, Bytes, SizesOf, Issued, Offsets, GoodReports, RowInv, RowIn, PutsMissing, PutsAll;
      var partSizes := FillPartSizes(fileSize, partSize);
      var ok, onServer, bitmap, dbInfo, uploadID, serverPartSize := GetUpload(readable, decoded, expired, answer);
      id := uploadID;
      if !ok {
        return;
      }
      if onServer {
        outcome := AlreadyOnServer;
        return;
      }
      if serverPartSize != partSize {
        StoresNothing(old(log), uploadID);
        return;
      }
      ghost var h, loaded := log, bitmap.Elements();
      outcome, uploadedSize, offsets, reports := UploadAll(partSizes, bitmap, dbInfo, uploadID);
      OneIDTwice(old(log), h, log, uploadID);
      StoresNothing(old(log), uploadID);
      CompletedSince(old(log), h, log, uploadID);
      if outcome == Uploaded {
        PutsAllSince(old(log), h, log, uploadID, PartNum(), loaded);
      }
    }

    lemma StoresNothing(before: seq<Event>, id: nat)
      requires Valid() && OneID(before, log, id)
      ensures before <= log && (id == 0 ==> forall i | |before| <= i < |log| :: !log[i].Stored?)
    {
      if id == 0 {
        EmptyIDStoresNothing(before, log, issued);
      }
    }

    /** The run from the choice of the upload on: all parts, and the completion. */
    method UploadAll(partSizes: array<int>, bitmap: Bitmap, dbInfo0: Option<Row>, uploadID: nat)
      returns (outcome: Outcome, uploadedSize: int, ghost offsets: seq<int>, ghost reports: seq<int>)
      requires Running(uploadID, bitmap.Elements(), dbInfo0) && InStep(dbInfo0, bitmap.Elements())
      requires bitmap.Elements() == PartsIn(RowIn(log), uploadID)
      requires bitmap.size == PartNum() && bitmap.Covers()
      requires partSizes[..] == SizesOf(fileSize, partSize) && partSizes as object != bitmap.data
      modifies this`row, this`log, bitmap.data
      ensures Valid() && OneID(old(log), log, uploadID)
      ensures GoodReports(reports, fileSize)
      ensures |offsets| <= PartNum() && Offsets(offsets, SizesOf(fileSize, partSize))
      ensures outcome == Stopped || outcome == Uploaded
      ensures serverWorks ==> outcome == Uploaded
      ensures PutsMissing(old(log), log, uploadID, old(bitmap.Elements()))
      ensures outcome == Uploaded ==>
                && uploadedSize == fileSize && |offsets| == PartNum()
                && Completed(uploadID) in log[|old(log)|..]
                && PutsAll(old(log), log, uploadID, PartNum(), old(bitmap.Elements()))
                && (tableWorks && dbInfo0.Some? ==> row == None)
      ensures tableWorks && dbInfo0.Some? && row.Some? ==> Before(|offsets|) <= PartsOf(row.value, PartNum())
      ensures dbInfo0 == None ==> row == old(row)
    {
      PartsDivideFile(fileSize, partSize);
      hide Safe, Keeps, IndexSet, Words, Bytes, SumOver, Sum, SizesOf, AllParts, Issued, Offsets, GoodReports,
           RowInv, RowIn, WholeRun, RunID, LoadedIn, Continues, OneID, PutsAscend, PutsMissing, PutsAll;
      outcome := Stopped;
      ghost var h, loaded := log, bitmap.Elements();
      StartRun(uploadID, bitmap.Elements(), dbInfo0);
      ghost var h1 := log;
      uploadedSize := CountUploaded(partSizes, bitmap);
      var ok, dbInfo;
      ok, uploadedSize, dbInfo, offsets, reports := UploadParts(partSizes, bitmap, dbInfo0, uploadID, uploadedSize);
      OneIDTwice(h, h1, log, uploadID);
      PutsNothing(h, h1[|h|], 0, loaded);
      PutsTwice(h, h1, log, 0, 0, PartNum(), loaded);
      AscendIsMissing(h, log, log, PartNum(), uploadID, loaded);
      if !ok {
        return;
      }
      StartsWith(h, h1, log);
      AllPut(h, log, uploadID, loaded);
      var completed := Finish(uploadID, dbInfo.Some?, h, loaded);
      if completed {
        outcome := Uploaded;
      }
    }

    /** The completion, and then the deletion of the row. */
    method Finish(uploadID: nat, stored: bool, ghost before: seq<Event>, ghost loaded: set<nat>) returns (completed: bool)
      requires Valid() && uploadID <= issued && WholeRun(log, uploadID, partMd5s)
      requires OneID(before, log, uploadID)
      requires PutsAscend(before, log, 0, PartNum(), loaded) && PutsAll(before, log, uploadID, PartNum(), loaded)
      modifies this`row, this`log
      ensures Valid() && OneID(before, log, uploadID) && PutsMissing(before, log, uploadID, loaded)
      ensures completed ==>
                && Completed(uploadID) in log[|before|..] && PutsAll(before, log, uploadID, PartNum(), loaded)
                && (tableWorks && stored ==> row == None)
      ensures row == old(row) || (stored && row == None)
      ensures serverWorks ==> completed
    {
      ghost var h, n := log, PartNum();
      hide ValidWith, WholeRun, OneID, PutsAscend, PutsAll, PutsMissing;
      completed := CompleteMultipartUpload(uploadID);
      OneIDTwice(before, h, log, uploadID);
      MorePuts(before, h, log, uploadID, n, loaded);
      if !completed {
        AscendIsMissing(before, h, log, n, uploadID, loaded);
        return;
      }
      ghost var h1 := log;
      AnsweredIsMissing(before, h, h1, n, uploadID, loaded);
      if stored && row.Some? {
        var _ := DeleteRow();
        DeletionKeeps(before, h1, log, uploadID);
        MorePuts(before, h, log, uploadID, n, loaded);
        DeletedIsMissing(before, h, h1, log, n, uploadID, loaded);
      }
    }

    lemma StartsWith(h: seq<Event>, h1: seq<Event>, log: seq<Event>)
      requires |h| < |h1| && h <= h1 && Continues(h1, log, partMd5s)
      ensures h + [h1[|h|]] <= log
    {
    }

    /** Every part that was not loaded has been PUT since, when the run is whole. */
    lemma AllPut(before: seq<Event>, h: seq<Event>, uploadID: nat, loaded: set<nat>)
      requires fileSize > 0 && partSize > 0 && |partMd5s| == PartNum()
      requires before + [Started(uploadID, loaded)] <= h && WholeRun(h, uploadID, partMd5s) && LoadedIn(h) == loaded
      ensures PutsAll(before, h, uploadID, PartNum(), loaded)
    {
      forall p: nat | p < PartNum() && p !in loaded
        ensures Put(uploadID, p) in h[|before|..]
      {
        assert p in AllParts(|partMd5s|);
        PutInAdded(before, h, Started(uploadID, loaded), p);
      }
    }

    lemma MorePuts(before: seq<Event>, h: seq<Event>, h': seq<Event>, id: nat, n: nat, loaded: set<nat>)
      requires PutsAll(before, h, id, n, loaded) && h <= h'
      ensures PutsAll(before, h', id, n, loaded)
    {
      assert h'[|before|..] == h[|before|..] + h'[|h|..];
    }

    lemma DeletionKeeps(before: seq<Event>, h: seq<Event>, log: seq<Event>, id: nat)
      requires OneID(before, h, id) && Completed(id) in h[|before|..]
      requires log == h || (|log| == |h| + 1 && h <= log && log[|h|].Deleted?)
      ensures OneID(before, log, id) && Completed(id) in log[|before|..]
    {
      var i :| 0 <= i < |h[|before|..]| && h[|before|..][i] == Completed(id);
      assert log[|before|..][i] == Completed(id);
    }

    /** The upload begins with the marks of the row. */
    ghost method StartRun(uploadID: nat, loaded: set<nat>, dbInfo: Option<Row>)
      requires Running(uploadID, loaded, dbInfo) && loaded == PartsIn(RowIn(log), uploadID)
      modifies this`log
      ensures Running(uploadID, loaded, dbInfo) && OneID(old(log), log, uploadID)
      ensures log == old(log) + [Started(uploadID, loaded)]
      ensures RunID(log) == uploadID && LoadedIn(log) == loaded
    {
      hide Safe, Keeps, RowInv, RowIn, RunID, LoadedIn, Issued, OneID, PartNum, GetPartNum, PartsIn;
      OneStart(uploadID, loaded, dbInfo);
      log := log + [Started(uploadID, loaded)];
    }

    lemma OneStart(uploadID: nat, loaded: set<nat>, dbInfo: Option<Row>)
      requires Running(uploadID, loaded, dbInfo) && loaded == PartsIn(RowIn(log), uploadID)
      ensures var after := log + [Started(uploadID, loaded)];
              && Safe(after, partMd5s) && Issued(after, issued) && RowInv(row, after, PartNum(), issued)
              && Keeps(after, uploadID, loaded) && OneID(log, after, uploadID)
              && RunID(after) == uploadID && LoadedIn(after) == loaded
    {
      var e := Started(uploadID, loaded);
      StartIsSafe(log, partMd5s, uploadID, loaded);
      RunOneMore(log, e, partMd5s);
      RowKept(row, log, e, PartNum(), issued, partMd5s);
      KeepsOther(log, e, uploadID, loaded);
      hide Safe, Keeps, RowInv, RowIn, RunID, LoadedIn, PutIn, MatchedIn;
    }

    /** completeMultipartUpload: the request is sent; the server may answer that it has the file. */
    method CompleteMultipartUpload(uploadID: nat) returns (answered: bool)
      requires Valid() && uploadID <= issued && WholeRun(log, uploadID, partMd5s)
      modifies this`log
      ensures Valid() && OneID(old(log), log, uploadID)
      ensures log == old(log) + (if answered then [Complete(uploadID), Completed(uploadID)] else [Complete(uploadID)])
      ensures serverWorks ==> answered
    {
      hide ValidWith, OneID, WholeRun;
      ghost var h := log;
      RequestSent(uploadID);
      log := log + [Complete(uploadID)];
      answered := *;
      answered := answered || serverWorks;
      if answered {
        AnswerIsQuiet(h, uploadID);
        log := log + [Completed(uploadID)];
        assert h + [Complete(uploadID)] + [Completed(uploadID)] == h + [Complete(uploadID), Completed(uploadID)];
      }
    }

    lemma RequestSent(uploadID: nat)
      requires Valid() && uploadID <= issued && WholeRun(log, uploadID, partMd5s)
      ensures ValidWith(log + [Complete(uploadID)]) && OneID(log, log + [Complete(uploadID)], uploadID)
    {
      hide Safe, Keeps, RowInv, WholeRun, Issued, OneID, PartNum;
      CompleteIsSafe(log, partMd5s, uploadID);
      RowKept(row, log, Complete(uploadID), PartNum(), issued, partMd5s);
      NothingOfID(log, uploadID);
      OneMoreOfID(log, log, Complete(uploadID), uploadID, issued);
    }

    lemma NothingOfID(h: seq<Event>, id: nat)
      ensures OneID(h, h, id)
    {
    }

    lemma AnswerIsQuiet(before: seq<Event>, uploadID: nat)
      requires Valid() && uploadID <= issued && OneID(before, log, uploadID)
      ensures ValidWith(log + [Completed(uploadID)]) && OneID(before, log + [Completed(uploadID)], uploadID)
    {
      hide Safe, Keeps, RowInv, Issued, OneID, PartNum;
      QuietIsSafe(log, partMd5s, Completed(uploadID));
      RowKept(row, log, Completed(uploadID), PartNum(), issued, partMd5s);
      OneMoreOfID(before, log, Completed(uploadID), uploadID, issued);
    }

    /** Any number of runs, each of which may fail or be cut off anywhere. */
    method Runs(n: nat)
      requires Valid()
      modifies this`row, this`log, this`issued
      ensures Valid() && Safe(log, partMd5s) && old(log) <= log
    {
      for i := 0 to n
        invariant Valid() && old(log) <= log
      {
        var readable: bool, decoded: bool, expired: bool, answer: Answer := *, *, *, *;
        var _, _, _, _, _ := Run(readable, decoded, expired, answer);
      }
    }
  }
}
