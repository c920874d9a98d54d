/**
 The log forwarder of web (crates/web/src/telemetry.rs): a bounded channel that drops when full, and one loop
 that takes records off it in batches. Each turn of the loop is told what arrives while it waits.

 `TurnOf` and `RunOf` say exactly what a turn and a run do to the channel; the lemmas about them say that nothing
 accepted is lost.
 */
module Forwarder {
  const CHANNEL_CAPACITY: nat := 512
  const BATCH_SIZE: nat := 64

  function Flat<T>(batches: seq<seq<T>>): seq<T> {
    if batches == [] then [] else batches[0] + Flat(batches[1..])
  }

  lemma {:induction false} FlatConcat<T>(a: seq<seq<T>>, b: seq<seq<T>>)
    ensures Flat(a + b) == Flat(a) + Flat(b)
  {
    if a == [] {
      assert a + b == b;
    } else {
      assert (a + b)[1..] == a[1..] + b;
      FlatConcat(a[1..], b);
    }
  }

  lemma FlatOne<T>(batch: seq<T>)
    ensures Flat([batch]) == batch
  {
    assert [batch][1..] == [];
  }

  function Min(a: nat, b: nat): nat {
    if a < b then a else b
  }

  function CeilDiv(n: nat, d: nat): nat
    requires d > 0
  {
    (n + d - 1) / d
  }

  // What a turn does

  /**
   What the other threads do during one turn: what they submit while the loop waits, whether the last of them then
   goes away, what they submit before each further `try_recv`, and what they submit during the upload.
   */
  datatype Meanwhile<T> = Meanwhile(waiting: seq<T>, closes: bool, draining: seq<seq<T>>, uploading: seq<T>)

  predicate Quiet<T>(m: Meanwhile<T>) {
    m.waiting == [] && !m.closes && m.draining == [] && m.uploading == []
  }

  /** Of records submitted in a row, the channel takes the first ones, as many as there is room for. */
  function Fitting<T>(queue: seq<T>, records: seq<T>): seq<T>
    requires |queue| <= CHANNEL_CAPACITY
  {
    records[..Min(|records|, CHANNEL_CAPACITY - |queue|)]
  }

  datatype Drained<T> = Drained(queue: seq<T>, batch: seq<T>, took: seq<T>)

  /** Moving records from the channel to the batch, with arrivals before each; `took` is what the channel accepts. */
  function Drain<T>(queue: seq<T>, batch: seq<T>, arrivals: seq<seq<T>>): (r: Drained<T>)
    requires |queue| <= CHANNEL_CAPACITY && |batch| <= BATCH_SIZE
    ensures |r.queue| <= CHANNEL_CAPACITY && |r.batch| <= BATCH_SIZE && batch <= r.batch
    decreases BATCH_SIZE - |batch|
  {
    if |batch| == BATCH_SIZE then Drained(queue, batch, [])
    else
      var fit := if arrivals == [] then [] else Fitting(queue, arrivals[0]);
      var there := queue + fit;
      if there == [] then Drained(there, batch, fit)
      else
        var rest := Drain(there[1..], batch + [there[0]], if arrivals == [] then [] else arrivals[1..]);
        Drained(rest.queue, rest.batch, fit + rest.took)
  }

  /** Draining loses nothing and changes no order, and stops short of a full batch only on an empty channel. */
  lemma {:induction false} DrainConserves<T>(queue: seq<T>, batch: seq<T>, arrivals: seq<seq<T>>)
    requires |queue| <= CHANNEL_CAPACITY && |batch| <= BATCH_SIZE
    ensures var r := Drain(queue, batch, arrivals);
            r.batch + r.queue == batch + queue + r.took && (|r.batch| < BATCH_SIZE ==> r.queue == [])
    decreases BATCH_SIZE - |batch|
  {
    if |batch| < BATCH_SIZE {
      var fit := if arrivals == [] then [] else Fitting(queue, arrivals[0]);
      var there := queue + fit;
      if there != [] {
        var later := if arrivals == [] then [] else arrivals[1..];
        DrainConserves(there[1..], batch + [there[0]], later);
        Shift(batch, there, queue, fit, Drain(there[1..], batch + [there[0]], later).took);
      }
    }
  }

  lemma Shift<T>(batch: seq<T>, there: seq<T>, queue: seq<T>, fit: seq<T>, took: seq<T>)
    requires there == queue + fit && there != []
    ensures batch + [there[0]] + there[1..] + took == batch + queue + (fit + took)
  {
    assert there == [there[0]] + there[1..];
  }

  /** What is left to drain after one more record, and what has been taken then. */
  lemma DrainTook<T>(took: seq<T>, queue: seq<T>, batch: seq<T>, arrivals: seq<seq<T>>)
    requires |queue| <= CHANNEL_CAPACITY && |batch| < BATCH_SIZE
    ensures var fit := if arrivals == [] then [] else Fitting(queue, arrivals[0]);
            var there, r := queue + fit, Drain(queue, batch, arrivals);
            if there == [] then r == Drained([], batch, []) && fit == []
            else
              var next := Drain(there[1..], batch + [there[0]], if arrivals == [] then [] else arrivals[1..]);
              r.queue == next.queue && r.batch == next.batch && took + r.took == took + fit + next.took
  {
  }

  /** Without arrivals, draining moves the oldest records. */
  lemma {:induction false} DrainQuiet<T>(queue: seq<T>, batch: seq<T>)
    requires |queue| <= CHANNEL_CAPACITY && |batch| <= BATCH_SIZE
    ensures var n := Min(BATCH_SIZE - |batch|, |queue|);
            Drain(queue, batch, []) == Drained(queue[n..], batch + queue[..n], [])
    decreases BATCH_SIZE - |batch|
  {
    if |batch| < BATCH_SIZE && queue != [] {
      assert queue + [] == queue;
      DrainQuiet(queue[1..], batch + [queue[0]]);
      Slices(batch, queue, Min(BATCH_SIZE - |batch|, |queue|));
    }
  }

  lemma Slices<T>(batch: seq<T>, queue: seq<T>, n: nat)
    requires 1 <= n <= |queue|
    ensures queue[1..][n - 1..] == queue[n..]
    ensures batch + [queue[0]] + queue[1..][..n - 1] == batch + queue[..n]
  {
  }

  /** The channel afterwards, what it accepted, the batches handed to `upload`, and whether the loop goes on. */
  datatype Outcome<T> = Outcome(queue: seq<T>, open: bool, took: seq<T>, batches: seq<seq<T>>, more: bool)

  function TurnOf<T>(queue: seq<T>, open: bool, m: Meanwhile<T>): (r: Outcome<T>)
    requires |queue| <= CHANNEL_CAPACITY
    ensures |r.queue| <= CHANNEL_CAPACITY && r.open == (open && !m.closes)
  {
    var first, stays := Fitting(queue, m.waiting), open && !m.closes;
    var there := queue + first;
    if there == [] then Outcome(there, stays, first, [], stays)
    else
      var d := Drain(there[1..], [there[0]], if stays then m.draining else []);
      var late := if stays then Fitting(d.queue, m.uploading) else [];
      Outcome(d.queue + late, stays, first + d.took + late, [d.batch], true)
  }

  /** One turn: what was there and what was accepted is what was handed over and what is left, in order. */
  lemma TurnConserves<T>(queue: seq<T>, open: bool, m: Meanwhile<T>)
    requires |queue| <= CHANNEL_CAPACITY
    ensures var r := TurnOf(queue, open, m);
            && Flat(r.batches) + r.queue == queue + r.took
            && (forall k | 0 <= k < |r.batches| :: 1 <= |r.batches[k]| <= BATCH_SIZE)
            && (!r.more ==> !r.open && r.queue == [] && r.batches == [] && queue == [] && r.took == [])
  {
    var first, stays := Fitting(queue, m.waiting), open && !m.closes;
    var there := queue + first;
    if there != [] {
      var d := Drain(there[1..], [there[0]], if stays then m.draining else []);
      var late := if stays then Fitting(d.queue, m.uploading) else [];
      DrainConserves(there[1..], [there[0]], if stays then m.draining else []);
      FlatOne(d.batch);
      Rejoin(queue, first, there, d.batch, d.queue, d.took, late);
    }
  }

  lemma Rejoin<T>(queue: seq<T>, first: seq<T>, there: seq<T>, batch: seq<T>, left: seq<T>, took: seq<T>, late: seq<T>)
    requires there == queue + first && there != [] && batch + left == [there[0]] + there[1..] + took
    ensures batch + (left + late) == queue + (first + took + late)
  {
    assert there == [there[0]] + there[1..];
    assert batch + (left + late) == (batch + left) + late;
  }

  /** A turn without arrivals hands over the oldest records, up to 64, or waits, or ends. */
  lemma QuietTurn<T>(queue: seq<T>, open: bool, m: Meanwhile<T>)
    requires |queue| <= CHANNEL_CAPACITY && Quiet(m)
    ensures var n := Min(BATCH_SIZE, |queue|);
            TurnOf(queue, open, m)
            == Outcome(queue[n..], open, [], if n == 0 then [] else [queue[..n]], n > 0 || open)
  {
    assert queue + [] == queue;
    if queue != [] {
      var n := Min(BATCH_SIZE, |queue|);
      DrainQuiet(queue[1..], [queue[0]]);
      Slices([], queue, n);
      assert [] + [queue[0]] == [queue[0]] && [] + queue[..n] == queue[..n];
      assert queue[n..] + [] == queue[n..];
    }
  }

  /** While there is room for everything, a turn accepts everything submitted during its wait. */
  lemma NothingDroppedWithRoom<T>(queue: seq<T>, open: bool, m: Meanwhile<T>)
    requires |queue| + |m.waiting| <= CHANNEL_CAPACITY
    ensures m.waiting <= TurnOf(queue, open, m).took
  {
  }

  // What a run does

  function RunOf<T>(queue: seq<T>, open: bool, turns: seq<Meanwhile<T>>): (r: Outcome<T>)
    requires |queue| <= CHANNEL_CAPACITY
    ensures |r.queue| <= CHANNEL_CAPACITY
  {
    if turns == [] then Outcome(queue, open, [], [], true)
    else
      var before := RunOf(queue, open, turns[..|turns| - 1]);
      if !before.more then before
      else
        var last := TurnOf(before.queue, before.open, turns[|turns| - 1]);
        Outcome(last.queue, last.open, before.took + last.took, before.batches + last.batches, last.more)
  }

  /**
   Over any number of turns and any arrivals: the batches handed over, followed by what is left, are what was there and
   what was accepted, in order; every batch has 1 to 64 records; and the loop ends only when nothing is left.
   */
  lemma {:induction false} RunConserves<T>(queue: seq<T>, open: bool, turns: seq<Meanwhile<T>>)
    requires |queue| <= CHANNEL_CAPACITY
    ensures var r := RunOf(queue, open, turns);
            && Flat(r.batches) + r.queue == queue + r.took
            && (forall k | 0 <= k < |r.batches| :: 1 <= |r.batches[k]| <= BATCH_SIZE)
            && (!r.more ==> !r.open && r.queue == [] && Flat(r.batches) == queue + r.took)
  {
    if turns == [] {
      assert Flat<T>([]) + queue == queue + [];
    } else {
      var before := RunOf(queue, open, turns[..|turns| - 1]);
      RunConserves(queue, open, turns[..|turns| - 1]);
      if before.more {
        var last := TurnOf(before.queue, before.open, turns[|turns| - 1]);
        TurnConserves(before.queue, before.open, turns[|turns| - 1]);
        FlatConcat(before.batches, last.batches);
        Chain(Flat(before.batches), Flat(last.batches), last.queue, before.queue, last.took, queue, before.took);
      }
    }
  }

  lemma Chain<T>(a: seq<T>, b: seq<T>, q2: seq<T>, q1: seq<T>, t2: seq<T>, q: seq<T>, t1: seq<T>)
    requires a + q1 == q + t1 && b + q2 == q1 + t2
    ensures (a + b) + q2 == q + (t1 + t2)
  {
    assert (a + b) + q2 == a + (b + q2) == (a + q1) + t2;
  }

  class ApplicationLogForwarder<T> {
    var queue: seq<T>
    var open: bool
    var batch: seq<T>
    /** Every record the channel took, in order. */
    ghost var accepted: seq<T>
    /** Every batch handed to `upload`, in order. */
    ghost var uploaded: seq<seq<T>>

    ghost predicate Valid()
      reads this
    {
      |queue| <= CHANNEL_CAPACITY && |batch| <= BATCH_SIZE
    }

    /** At the head of the loop: the batch is empty, and nothing accepted is lost, repeated or reordered. */
    ghost predicate Conserves()
      reads this
    {
      batch == [] && Flat(uploaded) + queue == accepted
    }

    constructor ()
      ensures Valid() && Conserves() && open && queue == [] && batch == [] && accepted == [] && uploaded == []
    {
      queue, open, batch := [], true, [];
      accepted, uploaded := [], [];
    }

    /** `ChannelSink::submit`: a record is accepted exactly when the channel has room. */
    method Submit(record: T)
      requires Valid()
      modifies this`queue, this`accepted
      ensures Valid()
      ensures |old(queue)| < CHANNEL_CAPACITY ==> queue == old(queue) + [record] && accepted == old(accepted) + [record]
      ensures |old(queue)| >= CHANNEL_CAPACITY ==> queue == old(queue) && accepted == old(accepted)
    {
      if |queue| < CHANNEL_CAPACITY {
        queue := queue + [record];
        accepted := accepted + [record];
      }
    }

    method SubmitAll(records: seq<T>)
      requires Valid()
      modifies this`queue, this`accepted
      ensures Valid()
      ensures queue == old(queue) + Fitting(old(queue), records)
      ensures accepted == old(accepted) + Fitting(old(queue), records)
    {
      ghost var room := CHANNEL_CAPACITY - |queue|;
      for k := 0 to |records|
        invariant Valid()
        invariant queue == old(queue) + records[..Min(k, room)]
        invariant accepted == old(accepted) + records[..Min(k, room)]
      {
        Submit(records[k]);
      }
    }

    /** `mem::take` leaves the batch empty for the next turn; whether the upload succeeds changes nothing here. */
    method Upload()
      requires Valid() && batch != []
      modifies this`batch, this`uploaded
      ensures Valid() && batch == [] && uploaded == old(uploaded) + [old(batch)]
    {
      uploaded := uploaded + [batch];
      batch := [];
    }

    method TakeFirst()
      requires Valid() && queue != [] && |batch| < BATCH_SIZE
      modifies this`queue, this`batch
      ensures Valid() && batch == old(batch) + [old(queue)[0]] && queue == old(queue)[1..]
    {
      batch := batch + [queue[0]];
      queue := queue[1..];
    }

    /** The record `recv` gave, then `try_recv` until the batch is full or nothing is there. */
    method Receive(arrivals: seq<seq<T>>)
      requires Valid() && batch == [] && queue != []
      modifies this`queue, this`batch, this`accepted
      ensures Valid()
      ensures var d := Drain(old(queue)[1..], [old(queue)[0]], arrivals);
              queue == d.queue && batch == d.batch && accepted == old(accepted) + d.took
    {
      ghost var d := Drain(queue[1..], [queue[0]], arrivals);
      ghost var took: seq<T> := [];
      var later := arrivals;
      TakeFirst();
      assert batch == [old(queue)[0]];
      while |batch| < BATCH_SIZE
        invariant Valid() && accepted == old(accepted) + took
        invariant var left := Drain(queue, batch, later);
                  d.queue == left.queue && d.batch == left.batch && d.took == took + left.took
        decreases BATCH_SIZE - |batch|
      {
        DrainTook(took, queue, batch, later);
        ghost var there := queue + (if later == [] then [] else Fitting(queue, later[0]));
        if later != [] {
          took := took + Fitting(queue, later[0]);
          SubmitAll(later[0]);
          later := later[1..];
        }
        assert queue == there;
        if queue == [] {
          break;
        }
        TakeFirst();
      }
    }

    /** The wait for the first record of a turn: meanwhile records arrive, and the last sender may go away. */
    method Await(m: Meanwhile<T>)
      requires Valid()
      modifies this`queue, this`open, this`accepted
      ensures Valid() && open == (old(open) && !m.closes)
      ensures queue == old(queue) + Fitting(old(queue), m.waiting)
      ensures accepted == old(accepted) + Fitting(old(queue), m.waiting)
    {
      SubmitAll(m.waiting);
      if m.closes {
        open := false;
      }
    }

    /** One turn of the loop; `more` is false when it returns. */
    method Turn(m: Meanwhile<T>) returns (more: bool)
      requires Valid() && batch == []
      requires !open ==> Quiet(m)
      modifies this
      ensures Valid() && batch == []
      ensures var r := TurnOf(old(queue), old(open), m);
              && queue == r.queue && open == r.open && more == r.more
              && accepted == old(accepted) + r.took && uploaded == old(uploaded) + r.batches
    {
      Await(m);
      if queue != [] {
        Receive(if open then m.draining else []);
      } else if !open {
        // The code would upload a batch left over from an earlier turn here, but there never is one.
        assert batch == [];
        return false;
      }
      if batch != [] {
        Upload();
        if open {
          SubmitAll(m.uploading);
        }
      }
      return true;
    }

    /** Any number of turns, whatever arrives during them: the head of the loop finds an empty batch every time. */
    method Run(turns: seq<Meanwhile<T>>) returns (more: bool)
      requires Valid() && batch == [] && open
      requires forall i, j | 0 <= i < j < |turns| :: turns[i].closes ==> Quiet(turns[j])
      modifies this
      ensures Valid() && batch == []
      ensures var r := RunOf(old(queue), old(open), turns);
              && queue == r.queue && open == r.open && more == r.more
              && accepted == old(accepted) + r.took && uploaded == old(uploaded) + r.batches
      ensures old(Conserves()) ==> Conserves()
      ensures !more ==> !open && queue == []
    {
      more := true;
      for k := 0 to |turns|
        invariant Valid() && batch == []
        invariant !open ==> exists i | 0 <= i < k :: turns[i].closes
        invariant var r := RunOf(old(queue), old(open), turns[..k]);
                  && queue == r.queue && open == r.open && more == r.more
                  && accepted == old(accepted) + r.took && uploaded == old(uploaded) + r.batches
      {
        RunStep(old(queue), old(open), turns, k, old(accepted), old(uploaded));
        if more {
          more := Turn(turns[k]);
        }
      }
      assert turns[..|turns|] == turns;
      StillConserves(old(queue), old(open), turns, old(accepted), old(uploaded));
    }

    /** A turn after the last sender has gone. */
    method LastTurn() returns (more: bool)
      requires Valid() && Conserves() && !open
      modifies this
      ensures Valid() && Conserves() && !open && accepted == old(accepted)
      ensures var n := Min(BATCH_SIZE, |old(queue)|);
              && queue == old(queue)[n..] && (more <==> n > 0)
              && uploaded == old(uploaded) + (if n == 0 then [] else [old(queue)[..n]])
    {
      var m := Meanwhile([], false, [], []);
      QuietTurn(queue, false, m);
      QuietConserves(queue, Flat(uploaded), uploaded, accepted);
      more := Turn(m);
    }

    /** Once the last sender is gone the loop uploads everything left, in as few batches as fit, and returns. */
    method Finish() returns (turns: nat)
      requires Valid() && Conserves() && !open
      modifies this
      ensures queue == [] && Conserves() && Flat(uploaded) == accepted
      ensures accepted == old(accepted) && old(uploaded) <= uploaded
      ensures turns == CeilDiv(|old(queue)|, BATCH_SIZE) + 1
      ensures |uploaded| == |old(uploaded)| + CeilDiv(|old(queue)|, BATCH_SIZE)
    {
      turns := 0;
      var more := true;
      while more
        invariant Valid() && Conserves() && !open && accepted == old(accepted) && old(uploaded) <= uploaded
        invariant !more ==> queue == []
        invariant turns + CeilDiv(|queue|, BATCH_SIZE) + (if more then 1 else 0) == CeilDiv(|old(queue)|, BATCH_SIZE) + 1
        invariant |uploaded| + CeilDiv(|queue|, BATCH_SIZE) == |old(uploaded)| + CeilDiv(|old(queue)|, BATCH_SIZE)
        decreases |queue|, more
      {
        more := LastTurn();
        turns := turns + 1;
      }
      assert Flat(uploaded) + [] == Flat(uploaded);
    }
  }

  lemma QuietConserves<T>(queue: seq<T>, flat: seq<T>, uploaded: seq<seq<T>>, accepted: seq<T>)
    requires flat == Flat(uploaded) && flat + queue == accepted
    ensures var n := Min(BATCH_SIZE, |queue|);
            Flat(uploaded + (if n == 0 then [] else [queue[..n]])) + queue[n..] == accepted
    ensures accepted + [] == accepted
  {
    var n := Min(BATCH_SIZE, |queue|);
    if n == 0 {
      assert uploaded + [] == uploaded;
    } else {
      FlatConcat(uploaded, [queue[..n]]);
      FlatOne(queue[..n]);
      Halves(flat, queue, n);
    }
  }

  lemma Halves<T>(front: seq<T>, queue: seq<T>, n: nat)
    requires n <= |queue|
    ensures front + queue[..n] + queue[n..] == front + queue
  {
    assert queue == queue[..n] + queue[n..];
  }

  /** One more turn of a run. */
  lemma RunStep<T>(queue: seq<T>, open: bool, turns: seq<Meanwhile<T>>, k: nat, accepted: seq<T>, uploaded: seq<seq<T>>)
    requires |queue| <= CHANNEL_CAPACITY && k < |turns|
    ensures var before, after := RunOf(queue, open, turns[..k]), RunOf(queue, open, turns[..k + 1]);
            if !before.more then after == before
            else
              var last := TurnOf(before.queue, before.open, turns[k]);
              && after.queue == last.queue && after.open == last.open && after.more == last.more
              && accepted + after.took == accepted + before.took + last.took
              && uploaded + after.batches == uploaded + before.batches + last.batches
  {
    assert turns[..k + 1][..k] == turns[..k] && turns[..k + 1][k] == turns[k];
    var before := RunOf(queue, open, turns[..k]);
    if before.more {
      var last := TurnOf(before.queue, before.open, turns[k]);
      Regroup(accepted, before.took, last.took);
      Regroup(uploaded, before.batches, last.batches);
    }
  }

  lemma Regroup<T>(a: seq<T>, b: seq<T>, c: seq<T>)
    ensures a + (b + c) == a + b + c
  {
  }

  /** A conserving channel conserves through a run. */
  lemma StillConserves<T>(queue: seq<T>, open: bool, turns: seq<Meanwhile<T>>, accepted: seq<T>, uploaded: seq<seq<T>>)
    requires |queue| <= CHANNEL_CAPACITY
    ensures var r := RunOf(queue, open, turns);
            && (Flat(uploaded) + queue == accepted ==> Flat(uploaded + r.batches) + r.queue == accepted + r.took)
            && (!r.more ==> !r.open && r.queue == [])
  {
    var r := RunOf(queue, open, turns);
    RunConserves(queue, open, turns);
    FlatConcat(uploaded, r.batches);
    if Flat(uploaded) + queue == accepted {
      Continue(Flat(uploaded), Flat(r.batches), r.queue, queue, r.took);
    }
  }

  lemma Continue<T>(a: seq<T>, b: seq<T>, q2: seq<T>, q1: seq<T>, took: seq<T>)
    requires b + q2 == q1 + took
    ensures (a + b) + q2 == (a + q1) + took
  {
    assert (a + b) + q2 == a + (b + q2);
  }
}
