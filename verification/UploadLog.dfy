/** What happens on the server and in the upload table over all runs of the upload of one file. */
module UploadLog {

  datatype Event =
    /** A run begins to upload under this ID; these parts are set in the bitmap it starts with. */
    | Started(id: nat, loaded: set<nat>)
    /** A PUT of one part that the server answered with success. */
    | Put(id: nat, part: nat)
    /** A part has been read through; this is the md5 of what was read. */
    | Read(id: nat, part: nat, md5: int)
    /** The stored row now has this upload ID and this set of parts. */
    | Stored(id: nat, parts: set<nat>)
    /** The row, which had this upload ID, is deleted. */
    | Deleted(id: nat)
    /** Completion requested. */
    | Complete(id: nat)
    /** The server answered that it has the file. */
    | Completed(id: nat)

  /** The parts PUT so far under an upload ID. */
  ghost function PutsOf(log: seq<Event>, id: nat): set<nat> {
    set i | 0 <= i < |log| && log[i].Put? && log[i].id == id :: log[i].part
  }

  predicate IsPart(i: nat, n: nat) {
    i < n
  }

  function AllParts(n: nat): set<nat> {
    set i: nat | i < n && IsPart(i, n)
  }

  // ---------- The current run ----------

  /** The ID under which the last run began. */
  function RunID(log: seq<Event>): nat {
    if log == [] then 0
    else
      var e := log[|log| - 1];
      if e.Started? then e.id else RunID(log[..|log| - 1])
  }

  /** The parts it began with. */
  function LoadedIn(log: seq<Event>): set<nat> {
    if log == [] then {}
    else
      var e := log[|log| - 1];
      if e.Started? then e.loaded else LoadedIn(log[..|log| - 1])
  }

  /** The parts PUT since then under its ID. */
  function PutIn(log: seq<Event>): set<nat> {
    if log == [] then {}
    else
      var front, e := log[..|log| - 1], log[|log| - 1];
      if e.Started? then {}
      else PutIn(front) + if e.Put? && e.id == RunID(front) then {e.part} else {}
  }

  /** The parts that were read since then with the md5 they should have. */
  function MatchedIn(log: seq<Event>, md5s: seq<int>): set<nat> {
    if log == [] then {}
    else
      var front, e := log[..|log| - 1], log[|log| - 1];
      if e.Started? then {}
      else MatchedIn(front, md5s) + if e.Read? && e.part < |md5s| && e.md5 == md5s[e.part] then {e.part} else {}
  }

  /** The row of the table. */
  datatype StoredRow = NoRow | StoredRow(id: nat, parts: set<nat>)

  function RowIn(log: seq<Event>): StoredRow {
    if log == [] then NoRow
    else
      var e := log[|log| - 1];
      if e.Stored? then StoredRow(e.id, e.parts)
      else if e.Deleted? then NoRow
      else RowIn(log[..|log| - 1])
  }

  function PartsIn(r: StoredRow, id: nat): set<nat> {
    if r.StoredRow? && r.id == id then r.parts else {}
  }

  // ---------- What the log keeps ----------

  /** Only parts PUT before under the row's upload ID are ever stored. */
  ghost predicate StoredWasPut(log: seq<Event>) {
    forall i | 0 <= i < |log| && log[i].Stored? :: log[i].parts <= PutsOf(log[..i], log[i].id)
  }

  /** While the row keeps its upload ID the stored set only grows. */
  ghost predicate StoredGrows(log: seq<Event>) {
    forall i, j | 0 <= i < j < |log| && log[i].Stored? && log[j].Stored? && log[i].id == log[j].id ::
      log[i].parts <= log[j].parts
  }

  /** A part that was stored is never PUT again under that upload ID. */
  ghost predicate NeverPutAgain(log: seq<Event>) {
    forall i, j | 0 <= i < j < |log| && log[i].Stored? && log[j].Put? && log[i].id == log[j].id ::
      log[j].part !in log[i].parts
  }

  /** A run begins with what the row holds for its upload ID, and with nothing if the row is not its. */
  ghost predicate StartIsRow(log: seq<Event>) {
    forall i | 0 <= i < |log| && log[i].Started? :: log[i].loaded == PartsIn(RowIn(log[..i]), log[i].id)
  }

  /** Completion is requested only by a run in which every part was loaded at its start or PUT since, and
      every part was read with the expected md5 since; all were PUT under its upload ID. */
  ghost predicate CompleteIsWhole(log: seq<Event>, md5s: seq<int>) {
    forall i | 0 <= i < |log| && log[i].Complete? :: WholeRun(log[..i], log[i].id, md5s)
  }

  ghost predicate WholeRun(log: seq<Event>, id: nat, md5s: seq<int>) {
    && RunID(log) == id
    && AllParts(|md5s|) <= LoadedIn(log) + PutIn(log)
    && AllParts(|md5s|) <= MatchedIn(log, md5s)
    && AllParts(|md5s|) <= PutsOf(log, id)
  }

  ghost predicate Safe(log: seq<Event>, md5s: seq<int>) {
    StoredWasPut(log) && StoredGrows(log) && NeverPutAgain(log) && StartIsRow(log) && CompleteIsWhole(log, md5s)
  }

  /** A set of parts that may be kept for an upload ID: it has all that was stored under the ID, and
      only what was PUT under it. */
  ghost predicate Keeps(log: seq<Event>, id: nat, parts: set<nat>) {
    && parts <= PutsOf(log, id)
    && (forall i | 0 <= i < |log| && log[i].Stored? && log[i].id == id :: log[i].parts <= parts)
  }

  /** No event has an ID that was not issued yet, and nothing is stored for the empty ID. */
  ghost predicate Issued(log: seq<Event>, last: nat) {
    forall i | 0 <= i < |log| :: log[i].id <= last && (log[i].Stored? ==> log[i].id > 0)
  }

  /** Everything one run adds to the log has its ID, but for the deletion of a row. */
  ghost predicate OneID(before: seq<Event>, log: seq<Event>, id: nat) {
    before <= log && forall i | |before| <= i < |log| :: log[i].Deleted? || log[i].id == id
  }

  /** The same run goes on. */
  ghost predicate Continues(h: seq<Event>, h': seq<Event>, md5s: seq<int>) {
    && h <= h' && RunID(h') == RunID(h) && LoadedIn(h') == LoadedIn(h)
    && PutIn(h) <= PutIn(h') && MatchedIn(h, md5s) <= MatchedIn(h', md5s)
  }

  lemma ContinuesNothing(h: seq<Event>, md5s: seq<int>)
    ensures Continues(h, h, md5s)
  {
  }

  lemma ContinuesTwice(h0: seq<Event>, h1: seq<Event>, h2: seq<Event>, md5s: seq<int>)
    requires Continues(h0, h1, md5s) && Continues(h1, h2, md5s)
    ensures Continues(h0, h2, md5s)
  {
    hide RunID, LoadedIn, PutIn, MatchedIn;
  }

  lemma ContinuesOneMore(h: seq<Event>, e: Event, md5s: seq<int>)
    requires !e.Started?
    ensures Continues(h, h + [e], md5s)
  {
    RunOneMore(h, e, md5s);
    hide RunID, LoadedIn, PutIn, MatchedIn;
  }

  lemma ContinuesParts(h: seq<Event>, h': seq<Event>, md5s: seq<int>)
    requires Continues(h, h', md5s)
    ensures RunID(h') == RunID(h) && LoadedIn(h') == LoadedIn(h)
    ensures LoadedIn(h) + PutIn(h) <= LoadedIn(h') + PutIn(h') && PutIn(h) <= PutIn(h')
    ensures MatchedIn(h, md5s) <= MatchedIn(h', md5s)
  {
    hide RunID, LoadedIn, PutIn, MatchedIn;
  }

  lemma InPutIn(h: seq<Event>, h': seq<Event>, md5s: seq<int>, part: nat)
    requires Continues(h, h', md5s)
    ensures part in PutIn(h) ==> part in PutIn(h')
  {
    hide RunID, LoadedIn, PutIn, MatchedIn;
  }

  lemma OneIDTwice(h0: seq<Event>, h1: seq<Event>, h2: seq<Event>, id: nat)
    requires OneID(h0, h1, id) && OneID(h1, h2, id)
    ensures OneID(h0, h2, id)
  {
  }

  lemma OneMoreOfID(before: seq<Event>, log: seq<Event>, e: Event, id: nat, last: nat)
    requires Issued(log, last) && OneID(before, log, id) && e.id == id <= last && !e.Stored?
    ensures Issued(log + [e], last) && OneID(before, log + [e], id) && OneID(log, log + [e], id)
  {
  }

  // ---------- One event more ----------

  lemma PutsOfOneMore(log: seq<Event>, e: Event, id: nat)
    ensures PutsOf(log + [e], id) == PutsOf(log, id) + if e.Put? && e.id == id then {e.part} else {}
  {
    var log' := log + [e];
    forall p | p in PutsOf(log, id)
      ensures p in PutsOf(log', id)
    {
      var i :| 0 <= i < |log| && log[i].Put? && log[i].id == id && log[i].part == p;
      assert log'[i] == log[i];
    }
    if e.Put? && e.id == id {
      assert log'[|log|] == e;
      assert e.part in PutsOf(log', id);
    }
  }

  lemma PrefixOneMore(log: seq<Event>, e: Event)
    ensures (log + [e])[..|log|] == log
    ensures forall i | 0 <= i < |log| :: (log + [e])[..i] == log[..i]
  {
  }

  lemma RunOneMore(log: seq<Event>, e: Event, md5s: seq<int>)
    ensures var log' := log + [e];
            if e.Started? then
              RunID(log') == e.id && LoadedIn(log') == e.loaded && PutIn(log') == {} && MatchedIn(log', md5s) == {}
            else
              && RunID(log') == RunID(log) && LoadedIn(log') == LoadedIn(log)
              && PutIn(log') == PutIn(log) + (if e.Put? && e.id == RunID(log) then {e.part} else {})
              && MatchedIn(log', md5s)
                 == MatchedIn(log, md5s) + (if e.Read? && e.part < |md5s| && e.md5 == md5s[e.part] then {e.part} else {})
    ensures RowIn(log + [e]) == if e.Stored? then StoredRow(e.id, e.parts) else if e.Deleted? then NoRow else RowIn(log)
  {
    assert (log + [e])[..|log + [e]| - 1] == log;
  }

  /** What was PUT since the run began was PUT under its ID. */
  lemma {:induction false} PutInRun(log: seq<Event>)
    ensures PutIn(log) <= PutsOf(log, RunID(log))
  {
    if log != [] {
      var front, e := log[..|log| - 1], log[|log| - 1];
      PutInRun(front);
      assert log == front + [e];
      PutsOfOneMore(front, e, RunID(log));
      hide PutsOf;
    }
  }

  lemma PutIsSafe(log: seq<Event>, md5s: seq<int>, id: nat, parts: set<nat>, part: nat)
    requires Safe(log, md5s) && Keeps(log, id, parts) && part !in parts
    ensures Safe(log + [Put(id, part)], md5s)
    ensures Keeps(log + [Put(id, part)], id, parts)
    ensures Keeps(log + [Put(id, part)], id, parts + {part})
  {
    PrefixOneMore(log, Put(id, part));
    PutsOfOneMore(log, Put(id, part), id);
    hide PutsOf, WholeRun, RowIn;
  }

  lemma StoreIsSafe(log: seq<Event>, md5s: seq<int>, id: nat, parts: set<nat>)
    requires Safe(log, md5s) && Keeps(log, id, parts)
    ensures Safe(log + [Stored(id, parts)], md5s)
    ensures Keeps(log + [Stored(id, parts)], id, parts)
  {
    PrefixOneMore(log, Stored(id, parts));
    PutsOfOneMore(log, Stored(id, parts), id);
    hide PutsOf, WholeRun, RowIn;
  }

  /** Reading a part, an answer of the server and deleting the row are always safe. */
  lemma QuietIsSafe(log: seq<Event>, md5s: seq<int>, e: Event)
    requires Safe(log, md5s) && (e.Read? || e.Deleted? || e.Completed?)
    ensures Safe(log + [e], md5s)
  {
    PrefixOneMore(log, e);
    hide PutsOf, WholeRun, RowIn;
  }

  lemma StartIsSafe(log: seq<Event>, md5s: seq<int>, id: nat, loaded: set<nat>)
    requires Safe(log, md5s) && loaded == PartsIn(RowIn(log), id)
    ensures Safe(log + [Started(id, loaded)], md5s)
  {
    PrefixOneMore(log, Started(id, loaded));
    hide PutsOf, WholeRun, RowIn;
  }

  lemma {:induction false} CompleteIsSafe(log: seq<Event>, md5s: seq<int>, id: nat)
    requires Safe(log, md5s) && WholeRun(log, id, md5s)
    ensures Safe(log + [Complete(id)], md5s)
  {
    PrefixOneMore(log, Complete(id));
    hide PutsOf, WholeRun, RowIn;
  }

  /** Events that store nothing under an upload ID do not disturb what is kept for it. */
  lemma KeepsOther(log: seq<Event>, e: Event, id: nat, parts: set<nat>)
    requires Keeps(log, id, parts) && (e.Stored? ==> e.id != id)
    ensures Keeps(log + [e], id, parts)
  {
    PutsOfOneMore(log, e, id);
    hide PutsOf;
  }

  lemma NothingKeptForNewID(log: seq<Event>, last: nat, id: nat)
    requires Issued(log, last) && (id > last || id == 0)
    ensures Keeps(log, id, {})
  {
  }

  /** A run with the empty ID stores nothing. */
  lemma EmptyIDStoresNothing(before: seq<Event>, log: seq<Event>, last: nat)
    requires Issued(log, last) && OneID(before, log, 0)
    ensures forall i | |before| <= i < |log| :: !log[i].Stored?
  {
  }
}
