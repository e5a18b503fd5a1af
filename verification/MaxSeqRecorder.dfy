/** The recorder that decides which messages are new, and the exactness of counting with it. The
    recorder is set to the maximum number the server reports and then grows by one for every message
    counted, whatever the number of the message. */
module MaxSeqRecorders {
  import opened SeqLists

  class MaxSeqRecorder {
    var seqs: map<string, int>

    constructor ()
      ensures seqs == map[]
    {
      seqs := map[];
    }

    /** A conversation that was never set has 0. */
    function Value(conversationID: string): int
      reads this
    {
      if conversationID in seqs then seqs[conversationID] else 0
    }

    method Get(conversationID: string) returns (value: int)
      ensures value == Value(conversationID)
    {
      value := 0;
      if conversationID in seqs {
        value := seqs[conversationID];
      }
    }

    method Set(conversationID: string, seq_: int)
      modifies this
      ensures Value(conversationID) == seq_
      ensures forall c :: c != conversationID ==> Value(c) == old(Value(c))
    {
      seqs := seqs[conversationID := seq_];
    }

    method Incr(conversationID: string, num: int)
      modifies this
      ensures Value(conversationID) == old(Value(conversationID)) + num
      ensures forall c :: c != conversationID ==> Value(c) == old(Value(c))
    {
      var current := Get(conversationID);
      seqs := seqs[conversationID := current + num];
    }

    method IsNewMsg(conversationID: string, seq_: int) returns (isNew: bool)
      ensures isNew <==> seq_ > Value(conversationID)
    {
      var currentSeq := Get(conversationID);
      isNew := seq_ > currentSeq;
    }
  }

  // ---------- What the recorder does to a stream ----------

  /** The recorder after a stream of messages, from the value start. */
  function Recorder(start: int, stream: seq<int>): int {
    if stream == [] then start
    else
      var r := Recorder(start, stream[..|stream| - 1]);
      if stream[|stream| - 1] > r then r + 1 else r
  }

  /** Message i of the stream is counted. */
  predicate Counted(start: int, stream: seq<int>, i: int)
    requires 0 <= i < |stream|
  {
    stream[i] > Recorder(start, stream[..i])
  }

  /** How many numbers of the stream lie above start. */
  function Above(start: int, stream: seq<int>): nat {
    if stream == [] then 0
    else Above(start, stream[..|stream| - 1]) + if stream[|stream| - 1] > start then 1 else 0
  }

  /** Exactly the messages above start are counted. */
  ghost predicate ExactlyTheNew(start: int, stream: seq<int>) {
    forall i | 0 <= i < |stream| :: Counted(start, stream, i) <==> stream[i] > start
  }

  lemma {:induction false} RecorderBounds(start: int, stream: seq<int>)
    ensures start <= Recorder(start, stream) <= start + Above(start, stream)
  {
    if stream != [] {
      RecorderBounds(start, stream[..|stream| - 1]);
    }
  }

  /** The stream may be cut into batches anywhere. */
  lemma {:induction false} RecorderSplits(start: int, a: seq<int>, b: seq<int>)
    ensures Recorder(start, a + b) == Recorder(Recorder(start, a), b)
  {
    if b == [] {
      assert a + b == a;
    } else {
      var front := b[..|b| - 1];
      RecorderSplits(start, a, front);
      assert (a + b)[..|a + b| - 1] == a + front;
    }
  }

  lemma {:induction false} AboveSplits(start: int, a: seq<int>, b: seq<int>)
    ensures Above(start, a + b) == Above(start, a) + Above(start, b)
  {
    if b == [] {
      assert a + b == a;
    } else {
      var front := b[..|b| - 1];
      AboveSplits(start, a, front);
      assert (a + b)[..|a + b| - 1] == a + front;
    }
  }

  /** Message i comes later than fewer new messages than its own distance from start. */
  predicate FarEnough(start: int, stream: seq<int>, i: int)
    requires 0 <= i < |stream|
  {
    stream[i] > start ==> stream[i] > start + Above(start, stream[..i])
  }

  ghost predicate AllFarEnough(start: int, stream: seq<int>) {
    forall i | 0 <= i < |stream| :: FarEnough(start, stream, i)
  }

  /** Counting is exact, in any order of arrival, exactly when the k-th new message (from 0) has a
      number above start + k; and then the recorder is start plus the number of new messages. */
  lemma {:induction false} ExactIff(start: int, stream: seq<int>)
    ensures ExactlyTheNew(start, stream) <==> AllFarEnough(start, stream)
    ensures ExactlyTheNew(start, stream) <==> Recorder(start, stream) == start + Above(start, stream)
  {
    if stream != [] {
      var n := |stream| - 1;
      var front := stream[..n];
      ExactIff(start, front);
      RecorderBounds(start, front);
      ExactOneMore(start, stream);
      FarOneMore(start, stream);
      hide ExactlyTheNew, AllFarEnough;
    }
  }

  lemma SameOnPrefix(start: int, stream: seq<int>, n: nat, i: nat)
    requires i < n <= |stream|
    ensures Counted(start, stream[..n], i) == Counted(start, stream, i)
    ensures FarEnough(start, stream[..n], i) == FarEnough(start, stream, i)
    ensures stream[..n][i] == stream[i]
  {
    assert stream[..n][..i] == stream[..i];
  }

  lemma ExactOneMore(start: int, stream: seq<int>)
    requires stream != []
    ensures var n := |stream| - 1;
            ExactlyTheNew(start, stream)
            <==> ExactlyTheNew(start, stream[..n]) && (Counted(start, stream, n) <==> stream[n] > start)
  {
    hide Counted;
    var n := |stream| - 1;
    if ExactlyTheNew(start, stream) {
      forall i | 0 <= i < n
        ensures Counted(start, stream[..n], i) <==> stream[..n][i] > start
      {
        SameOnPrefix(start, stream, n, i);
      }
    } else {
      var i :| 0 <= i <= n && !(Counted(start, stream, i) <==> stream[i] > start);
      if i < n {
        SameOnPrefix(start, stream, n, i);
      }
    }
  }

  lemma FarOneMore(start: int, stream: seq<int>)
    requires stream != []
    ensures var n := |stream| - 1;
            AllFarEnough(start, stream) <==> AllFarEnough(start, stream[..n]) && FarEnough(start, stream, n)
  {
    hide FarEnough;
    var n := |stream| - 1;
    if AllFarEnough(start, stream) {
      forall i | 0 <= i < n
        ensures FarEnough(start, stream[..n], i)
      {
        SameOnPrefix(start, stream, n, i);
      }
    } else {
      var i :| 0 <= i <= n && !FarEnough(start, stream, i);
      if i < n {
        SameOnPrefix(start, stream, n, i);
      }
    }
  }

  /** Fewer numbers lie above start than the distance of any bound above them all. */
  lemma {:induction false} AboveFits(start: int, stream: seq<int>, bound: int)
    requires Ascending(stream) && bound > start && forall s <- stream :: s < bound
    ensures start + Above(start, stream) < bound
  {
    if stream != [] {
      var last := stream[|stream| - 1];
      assert last in stream;
      if last > start {
        AboveFits(start, stream[..|stream| - 1], last);
      } else {
        AboveFits(start, stream[..|stream| - 1], bound);
      }
    }
  }

  /** Messages that arrive in increasing order are counted exactly, each once, and the recorder is the
      snapshot plus their number, over any batches. */
  lemma {:induction false} IncreasingIsExact(start: int, stream: seq<int>)
    requires Ascending(stream)
    ensures ExactlyTheNew(start, stream)
    ensures Recorder(start, stream) == start + Above(start, stream)
  {
    forall i | 0 <= i < |stream|
      ensures FarEnough(start, stream, i)
    {
      if stream[i] > start {
        AboveFits(start, stream[..i], stream[i]);
      }
    }
    ExactIff(start, stream);
  }

  /** Two new messages in the wrong order: the second is not counted. */
  lemma WrongOrderMisses(start: int)
    ensures !Counted(start, [start + 2, start + 1], 1)
    ensures Recorder(start, [start + 2, start + 1]) == start + 1
  {
    var stream := [start + 2, start + 1];
    assert stream[..1] == [start + 2] && [start + 2][..0] == [];
    assert Recorder(start, [start + 2]) == start + 1;
  }

  // ---------- Messages that are delivered again ----------

  /** How many different numbers of the stream lie above start. */
  function DistinctAbove(start: int, stream: seq<int>): nat {
    if stream == [] then 0
    else
      var front, last := stream[..|stream| - 1], stream[|stream| - 1];
      DistinctAbove(start, front) + if last > start && last !in front then 1 else 0
  }

  /** Every number above start is counted when it comes first, and nothing else is counted. */
  ghost predicate OnceEach(start: int, stream: seq<int>) {
    forall i | 0 <= i < |stream| :: Counted(start, stream, i) <==> stream[i] > start && stream[i] !in stream[..i]
  }

  /** A number above start is far enough from it exactly when it comes first. */
  predicate FarIffFirst(start: int, stream: seq<int>, i: int)
    requires 0 <= i < |stream|
  {
    stream[i] > start ==> (stream[i] > start + DistinctAbove(start, stream[..i]) <==> stream[i] !in stream[..i])
  }

  ghost predicate AllFarIffFirst(start: int, stream: seq<int>) {
    forall i | 0 <= i < |stream| :: FarIffFirst(start, stream, i)
  }

  /** Each new message is counted exactly once, however often and in whatever order it is delivered, if and
      only if every delivery lies further above start than the number of different new messages before it
      when it is the first of its number, and no further when it is not. The recorder is then start plus
      the number of different new messages. */
  lemma {:induction false} OnceEachIff(start: int, stream: seq<int>)
    ensures OnceEach(start, stream) <==> AllFarIffFirst(start, stream)
    ensures OnceEach(start, stream) ==> Recorder(start, stream) == start + DistinctAbove(start, stream)
  {
    if stream != [] {
      OnceEachIff(start, stream[..|stream| - 1]);
      RecorderBounds(start, stream[..|stream| - 1]);
      OnceOneMore(start, stream);
      FarIffFirstOneMore(start, stream);
      hide OnceEach, AllFarIffFirst;
    }
  }

  lemma PrefixTwice(start: int, stream: seq<int>, n: nat, i: nat)
    requires i < n <= |stream|
    ensures stream[..n][..i] == stream[..i] && stream[..n][i] == stream[i]
    ensures Counted(start, stream[..n], i) == Counted(start, stream, i)
    ensures FarIffFirst(start, stream[..n], i) == FarIffFirst(start, stream, i)
  {
    assert stream[..n][..i] == stream[..i];
  }

  lemma OnceOneMore(start: int, stream: seq<int>)
    requires stream != []
    ensures var n := |stream| - 1;
            OnceEach(start, stream)
            <==> OnceEach(start, stream[..n]) && (Counted(start, stream, n) <==> stream[n] > start && stream[n] !in stream[..n])
  {
    hide Counted;
    var n := |stream| - 1;
    if OnceEach(start, stream) {
      forall i | 0 <= i < n
        ensures Counted(start, stream[..n], i) <==> stream[..n][i] > start && stream[..n][i] !in stream[..n][..i]
      {
        PrefixTwice(start, stream, n, i);
      }
    } else {
      var i :| 0 <= i <= n && !(Counted(start, stream, i) <==> stream[i] > start && stream[i] !in stream[..i]);
      if i < n {
        PrefixTwice(start, stream, n, i);
      }
    }
  }

  lemma FarIffFirstOneMore(start: int, stream: seq<int>)
    requires stream != []
    ensures var n := |stream| - 1;
            AllFarIffFirst(start, stream) <==> AllFarIffFirst(start, stream[..n]) && FarIffFirst(start, stream, n)
  {
    hide FarIffFirst;
    var n := |stream| - 1;
    if AllFarIffFirst(start, stream) {
      forall i | 0 <= i < n
        ensures FarIffFirst(start, stream[..n], i)
      {
        PrefixTwice(start, stream, n, i);
      }
    } else {
      var i :| 0 <= i <= n && !FarIffFirst(start, stream, i);
      if i < n {
        PrefixTwice(start, stream, n, i);
      }
    }
  }

  /** The condition fails for a message two above start that is delivered twice: it is counted twice. */
  lemma RepeatedMessageCountsTwice(start: int)
    ensures Counted(start, [start + 2, start + 2], 0) && Counted(start, [start + 2, start + 2], 1)
  {
    var stream := [start + 2, start + 2];
    assert stream[..1] == [start + 2] && [start + 2][..0] == [];
    assert stream[..0] == [];
    assert Recorder(start, [start + 2]) == start + 1;
  }
}
