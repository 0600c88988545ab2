/**
 The 64-entry sliding bitmap that filters repeated SRTP packet indices, and the
 set of recorded indices it stands for.
 */
module Replay {
  import opened Bytes
  import opened Bits

  const REPLAY_WINDOW_SIZE := 64

  datatype Window = Window(maxIndex: u64, bits: u64) {

    predicate IsReplay(index: u64) {
      index <= maxIndex &&
      (maxIndex - index >= REPLAY_WINDOW_SIZE || And(bits, Pow2(maxIndex - index)) != 0)
    }

    function Record(index: u64): Window {
      if index > maxIndex then
        var diff := index - maxIndex;
        Window(index, SetBit(if diff < REPLAY_WINDOW_SIZE then Shl64(bits, diff) else 0, 0))
      else if maxIndex - index < REPLAY_WINDOW_SIZE then
        Window(maxIndex, SetBit(bits, maxIndex - index))
      else
        this
    }
  }

  const EMPTY := Window(0, 0)

  /** `w | (1 << d)` */
  function SetBit(w: u64, d: nat): u64
    requires d < 64
  {
    Pow2Words();
    Pow2Monotone(d + 1, 64);
    OrBound(w, Pow2(d), 64);
    Or(w, Pow2(d))
  }

  class ReplayWindow {
    var maxIndex: u64
    var window: u64

    function View(): Window
      reads this
    {
      Window(maxIndex, window)
    }

    constructor ()
      ensures View() == EMPTY
    {
      maxIndex, window := 0, 0;
    }

    method IsReplay(index: u64) returns (r: bool)
      ensures r == View().IsReplay(index)
    {
      if index > maxIndex {
        return false;
      }
      var diff := maxIndex - index;
      if diff >= REPLAY_WINDOW_SIZE {
        return true;
      }
      return And(window, Pow2(diff)) != 0;
    }

    method Record(index: u64)
      modifies this
      ensures View() == old(View()).Record(index)
    {
      if index > maxIndex {
        var diff := index - maxIndex;
        if diff < REPLAY_WINDOW_SIZE {
          window := Shl64(window, diff);
        } else {
          window := 0;
        }
        window := SetBit(window, 0);
        maxIndex := index;
      } else {
        var diff := maxIndex - index;
        if diff < REPLAY_WINDOW_SIZE {
          window := SetBit(window, diff);
        }
      }
    }
  }

  // ---- the bitmap refines the set of recorded indices ---------------------

  /** The window's state is what the recorded indices `seen` determine. */
  ghost predicate Tracks(w: Window, seen: set<nat>) {
    && (forall i :: i in seen ==> i <= w.maxIndex)
    && (w.maxIndex in seen || (seen == {} && w.maxIndex == 0))
    && (forall d: nat :: d < 64 && d <= w.maxIndex ==> (Bit(w.bits, d) <==> w.maxIndex - d in seen))
  }

  lemma BitSetBit(w: u64, k: nat, d: nat)
    requires k < 64
    ensures Bit(SetBit(w, k), d) <==> d == k || Bit(w, d)
  {
    BitOr(w, Pow2(k), d);
    BitPow2(k, d);
  }

  lemma EmptyTracks()
    ensures Tracks(EMPTY, {})
  {
    forall d: nat ensures !Bit(0, d) { BitZero(d); }
  }

  lemma RecordTracks(w: Window, seen: set<nat>, index: u64)
    requires Tracks(w, seen)
    ensures w.maxIndex - index < 64 ==> Tracks(w.Record(index), seen + {index})
    ensures w.maxIndex - index >= 64 ==> w.Record(index) == w
  {
    if w.maxIndex - index < 64 {
      var w', seen' := w.Record(index), seen + {index};
      forall d: nat | d < 64 && d <= w'.maxIndex
        ensures Bit(w'.bits, d) <==> w'.maxIndex - d in seen'
      {
        if index <= w.maxIndex {
          BitSetBit(w.bits, w.maxIndex - index, d);
        } else {
          var diff := index - w.maxIndex;
          var shifted: u64 := if diff < 64 then Shl64(w.bits, diff) else 0;
          BitSetBit(shifted, 0, d);
          if diff < 64 { BitShl64(w.bits, diff, d); } else { BitZero(d); }
        }
      }
    }
  }

  /** What the filter answers, from the set of indices it stands for. */
  lemma IsReplayIff(w: Window, seen: set<nat>, index: u64)
    requires Tracks(w, seen)
    ensures w.IsReplay(index) <==> index in seen || index + 64 <= w.maxIndex
  {
    if index <= w.maxIndex { AndPow2(w.bits, w.maxIndex - index); }
  }

  // ---- any sequence of records -------------------------------------------

  function RecordAll(history: seq<u64>): Window {
    if history == [] then EMPTY
    else RecordAll(history[..|history| - 1]).Record(history[|history| - 1])
  }

  /** The largest index recorded, 0 before the first. */
  function MaxOf(history: seq<u64>): u64 {
    if history == [] then 0
    else
      var m := MaxOf(history[..|history| - 1]);
      var last := history[|history| - 1];
      if m < last then last else m
  }

  /** The recorded indices that the bitmap remembers: those recorded while still in reach. */
  function Remembered(history: seq<u64>): set<nat> {
    if history == [] then {}
    else
      var last := history[|history| - 1];
      var before := history[..|history| - 1];
      Remembered(before) + (if last + 64 > MaxOf(before) then {last} else {})
  }

  lemma {:induction false} RecordAllTracks(history: seq<u64>)
    ensures Tracks(RecordAll(history), Remembered(history))
    ensures RecordAll(history).maxIndex == MaxOf(history)
    ensures forall i :: i in Remembered(history) ==> i in history
    ensures forall i :: i in history ==> i in Remembered(history) || i + 64 <= MaxOf(history)
  {
    if history == [] {
      EmptyTracks();
    } else {
      var before, last := history[..|history| - 1], history[|history| - 1];
      RecordAllTracks(before);
      RecordTracks(RecordAll(before), Remembered(before), last);
      assert history == before + [last];
    }
  }

  /** After any records, an index is refused exactly if it was recorded or lies 64 or more behind. */
  lemma WindowRefinesHistory(history: seq<u64>, index: u64)
    ensures RecordAll(history).IsReplay(index) <==> index in history || index + 64 <= MaxOf(history)
  {
    RecordAllTracks(history);
    IsReplayIff(RecordAll(history), Remembered(history), index);
  }
}
