/**
 * The per-SSRC packet-index state of SRTP: rollover-counter estimation
 * (RFC 3711, section 3.3.1 and Appendix A) and the 64-index sliding window
 * that serves replay protection and, on the sending side, IV-reuse prevention.
 */
module IndexWindows {
  import opened Wrappers
  import opened Bytes
  import opened Bits

  const REPLAY_WINDOW := 64

  /** Sequence numbers per rollover. */
  const SEQ_SPACE := 0x1_0000

  /** Values of the 32-bit rollover counter. */
  const ROC_SPACE := 0x1_0000_0000

  /** Packet indices: a rollover counter followed by a sequence number. */
  const INDEX_SPACE := 0x1_0000_0000_0000

  /** Half the sequence-number space: how far an estimate can reach. */
  const HALF := 0x8000

  /**
   * The value of an index window. `highest` is the largest index recorded and
   * binary digit `d` of the 64-bit word `bits` tells of index `highest - d`.
   */
  datatype Window = Window(highest: Option<nat>, bits: nat) {

    /** The receiver's estimate of a packet's index from its sequence number. */
    function Guess(seqNo: u16): nat {
      match highest
      case None => seqNo
      case Some(h) =>
        var roc := h / SEQ_SPACE % ROC_SPACE;
        var last := h % SEQ_SPACE;
        var v :=
          if last < HALF then
            if seqNo - last > HALF then (roc + ROC_SPACE - 1) % ROC_SPACE else roc
          else if last - HALF > seqNo then (roc + 1) % ROC_SPACE
          else roc;
        v * SEQ_SPACE + seqNo
    }

    /** The sender's own index; `None` when the rollover counter is exhausted. */
    function SendIndex(seqNo: u16): Option<nat> {
      match highest
      case None => Some(seqNo)
      case Some(h) =>
        var roc := h / SEQ_SPACE % ROC_SPACE;
        var last := h % SEQ_SPACE;
        if seqNo < last && last - seqNo > HALF then
          if roc + 1 == ROC_SPACE then None else Some((roc + 1) * SEQ_SPACE + seqNo)
        else
          Some(roc * SEQ_SPACE + seqNo)
    }

    /** Is `index` ahead of the window, or inside it and unmarked? */
    predicate Check(index: nat) {
      match highest
      case None => true
      case Some(h) => index > h || (h - index < REPLAY_WINDOW && !Bit(bits, h - index))
    }

    /** The window after marking `index`. */
    function Record(index: nat): Window {
      match highest
      case None => Window(Some(index), 1)
      case Some(h) =>
        if index > h then
          var shift := index - h;
          Window(Some(index), if shift >= REPLAY_WINDOW then 1 else Or(Low(Shl(bits, shift), 64), 1))
        else if h - index < REPLAY_WINDOW then
          Window(highest, Or(bits, Shl(1, h - index)))
        else
          this
    }
  }

  const EMPTY := Window(None, 0)

  // ------------------------------------------------------------------------
  // What a window means: a set of indices
  // ------------------------------------------------------------------------

  /** `w` is the window of exactly the indices in `s`. */
  ghost predicate Represents(w: Window, s: set<nat>) {
    match w.highest
    case None => s == {} && w.bits == 0
    case Some(h) =>
      && h in s
      && (forall i :: i in s ==> i <= h)
      && (forall d: nat :: Bit(w.bits, d) <==> d < REPLAY_WINDOW && d <= h && h - d in s)
  }

  lemma EmptyRepresentsNothing()
    ensures Represents(EMPTY, {})
  {
  }

  /** Recording an index adds that index to the set, whatever the distance moved. */
  lemma RecordRepresents(w: Window, s: set<nat>, index: nat)
    requires Represents(w, s)
    requires w.Check(index)
    ensures Represents(w.Record(index), s + {index})
  {
    var w', s' := w.Record(index), s + {index};
    var h' := w'.highest.value;
    forall d: nat
      ensures Bit(w'.bits, d) <==> d < REPLAY_WINDOW && d <= h' && h' - d in s'
    {
      RecordSetsOneBit(w, s, index, d);
    }
  }

  lemma RecordSetsOneBit(w: Window, s: set<nat>, index: nat, d: nat)
    requires Represents(w, s)
    requires w.Check(index)
    ensures w.Record(index).highest.Some?
    ensures var h' := w.Record(index).highest.value;
            Bit(w.Record(index).bits, d) <==> d < REPLAY_WINDOW && d <= h' && h' - d in s + {index}
  {
    BitOfOne(d);
    match w.highest
    case None =>
    case Some(h) =>
      if index > h {
        var shift := index - h;
        var moved := Shl(w.bits, shift);
        BitOfOr(Low(moved, 64), 1, d);
        BitOfLow(moved, 64, d);
        BitOfShl(w.bits, shift, d);
        if d >= shift {
          assert index - d == h - (d - shift);
        }
      } else {
        BitOfOr(w.bits, Shl(1, h - index), d);
        BitOfShl(1, h - index, d);
        if d >= h - index { BitOfOne(d - (h - index)); }
      }
  }

  /** The check passes exactly for indices above the highest one, or fewer than 64 behind it and new. */
  lemma CheckMeansNew(w: Window, s: set<nat>, index: nat)
    requires Represents(w, s)
    ensures w.Check(index) <==>
            index !in s && (forall i :: i in s ==> i < index + REPLAY_WINDOW)
  {
    match w.highest
    case None =>
    case Some(h) =>
      if index <= h {
        assert Bit(w.bits, h - index) <==> h - index < REPLAY_WINDOW && h - (h - index) in s;
      }
  }

  // ------------------------------------------------------------------------
  // Index estimation
  // ------------------------------------------------------------------------

  /** Signed distance from `h` to `i` on the circle of 2^48 indices, in [-2^47, 2^47). */
  function CircularDistance(h: nat, i: nat): int
    requires h < INDEX_SPACE && i < INDEX_SPACE
  {
    (i - h + INDEX_SPACE / 2) % INDEX_SPACE - INDEX_SPACE / 2
  }

  /** How far from `h` the estimate reaches: 2^15 both ways, the tie going to the same rollover. */
  predicate WithinReach(h: nat, i: nat)
    requires h < INDEX_SPACE && i < INDEX_SPACE
  {
    var d := CircularDistance(h, i);
    if h % SEQ_SPACE < HALF then -HALF < d <= HALF else -HALF <= d < HALF
  }

  lemma SplitIndex(roc: nat, seqNo: nat)
    requires roc < ROC_SPACE && seqNo < SEQ_SPACE
    ensures var i := roc * SEQ_SPACE + seqNo;
            i < INDEX_SPACE && i / SEQ_SPACE == roc && i % SEQ_SPACE == seqNo
  {
  }

  /**
   * The estimate recovers an index from its low 16 bits exactly when the index
   * is within reach of the highest one.
   */
  lemma GuessIsRightIffWithinReach(w: Window, i: nat)
    requires w.highest.Some? && w.highest.value < INDEX_SPACE
    requires i < INDEX_SPACE
    ensures w.Guess(i % SEQ_SPACE) == i <==> WithinReach(w.highest.value, i)
  {
    var h := w.highest.value;
    var roc, last := h / SEQ_SPACE, h % SEQ_SPACE;
    var v, seqNo := i / SEQ_SPACE, i % SEQ_SPACE;
    var g := GuessedRollover(roc, last, seqNo);
    assert w.Guess(seqNo) == g * SEQ_SPACE + seqNo;
    assert i - h == (v - roc) * SEQ_SPACE + seqNo - last;
    CircularDistanceCases(h, i);
    GuessedRolloverIsRight(roc, last, v, seqNo);
  }

  function GuessedRollover(roc: nat, last: nat, seqNo: nat): (g: nat)
    requires roc < ROC_SPACE && last < SEQ_SPACE && seqNo < SEQ_SPACE
    ensures g < ROC_SPACE
  {
    if last < HALF then
      if seqNo - last > HALF then if roc == 0 then ROC_SPACE - 1 else roc - 1 else roc
    else if last - HALF > seqNo then if roc == ROC_SPACE - 1 then 0 else roc + 1
    else roc
  }

  lemma GuessedRolloverIsRight(roc: nat, last: nat, v: nat, seqNo: nat)
    requires roc < ROC_SPACE && last < SEQ_SPACE && v < ROC_SPACE && seqNo < SEQ_SPACE
    ensures var e := (v - roc) * SEQ_SPACE + seqNo - last;
            var d := if e < -(INDEX_SPACE / 2) then e + INDEX_SPACE
                     else if e >= INDEX_SPACE / 2 then e - INDEX_SPACE
                     else e;
            GuessedRollover(roc, last, seqNo) == v <==>
            if last < HALF then -HALF < d <= HALF else -HALF <= d < HALF
  {
  }

  lemma CircularDistanceCases(h: nat, i: nat)
    requires h < INDEX_SPACE && i < INDEX_SPACE
    ensures var d, e := CircularDistance(h, i), i - h;
            d == if e < -(INDEX_SPACE / 2) then e + INDEX_SPACE
                 else if e >= INDEX_SPACE / 2 then e - INDEX_SPACE
                 else e
  {
  }

  /**
   * An index strictly within 2^15 of the highest one is estimated right, and
   * no other index with the same low 16 bits is that close.
   */
  lemma GuessIsNearest(w: Window, i: nat)
    requires w.highest.Some? && w.highest.value < INDEX_SPACE
    requires i < INDEX_SPACE && -HALF < i - w.highest.value < HALF
    ensures w.Guess(i % SEQ_SPACE) == i
    ensures forall j: nat :: j % SEQ_SPACE == i % SEQ_SPACE && -HALF < j - w.highest.value < HALF ==> j == i
  {
    CircularDistanceCases(w.highest.value, i);
    GuessIsRightIffWithinReach(w, i);
  }

  /** The sequence numbers a receiver would take for late packets of the previous rollover. */
  predicate StepsBack(w: Window, seqNo: u16) {
    w.highest.Some? && w.highest.value % SEQ_SPACE < HALF && seqNo - w.highest.value % SEQ_SPACE > HALF
  }

  /** Sender and receiver conclude the same index except where the receiver steps back a rollover. */
  lemma SenderAndReceiverAgree(w: Window, seqNo: u16)
    requires w.highest.Some? ==> w.highest.value < INDEX_SPACE
    ensures w.SendIndex(seqNo).Some? ==>
            (w.SendIndex(seqNo).value == w.Guess(seqNo) <==> !StepsBack(w, seqNo))
  {
    if w.highest.Some? {
      var roc := w.highest.value / SEQ_SPACE;
      var back := (roc + ROC_SPACE - 1) % ROC_SPACE;
      assert back != roc;
      if StepsBack(w, seqNo) {
        assert w.Guess(seqNo) == back * SEQ_SPACE + seqNo;
        assert w.SendIndex(seqNo) == Some(roc * SEQ_SPACE + seqNo);
      }
    }
  }

  /** The sender refuses exactly when a forward wrap meets the last rollover. */
  lemma SendIndexExhausted(w: Window, seqNo: u16)
    requires w.highest.Some? && w.highest.value < INDEX_SPACE
    ensures w.SendIndex(seqNo).None? <==>
            w.highest.value / SEQ_SPACE == ROC_SPACE - 1 && w.highest.value % SEQ_SPACE > seqNo + HALF
    ensures w.SendIndex(seqNo).Some? ==>
            w.SendIndex(seqNo).value < INDEX_SPACE && w.SendIndex(seqNo).value % SEQ_SPACE == seqNo
  {
    if w.SendIndex(seqNo).Some? {
      SplitIndex(w.SendIndex(seqNo).value / SEQ_SPACE, seqNo);
    }
  }

  // ------------------------------------------------------------------------
  // The mutable window
  // ------------------------------------------------------------------------

  class IndexWindow {
    var highest: Option<nat>
    var bits: nat

    ghost function View(): Window
      reads this
    {
      Window(highest, bits)
    }

    constructor ()
      ensures View() == EMPTY
    {
      highest, bits := None, 0;
    }

    method Guess(seqNo: u16) returns (index: nat)
      ensures index == View().Guess(seqNo)
    {
      if highest.None? {
        return seqNo;
      }
      var roc, last := highest.value / SEQ_SPACE % ROC_SPACE, highest.value % SEQ_SPACE;
      var v := roc;
      if last < HALF {
        if seqNo - last > HALF {
          v := (roc + ROC_SPACE - 1) % ROC_SPACE;
        }
      } else if last - HALF > seqNo {
        v := (roc + 1) % ROC_SPACE;
      }
      index := v * SEQ_SPACE + seqNo;
    }

    method SendIndex(seqNo: u16) returns (index: Option<nat>)
      ensures index == View().SendIndex(seqNo)
    {
      if highest.None? {
        return Some(seqNo);
      }
      var roc, last := highest.value / SEQ_SPACE % ROC_SPACE, highest.value % SEQ_SPACE;
      if seqNo < last && last - seqNo > HALF {
        if roc + 1 == ROC_SPACE {
          return None;
        }
        roc := roc + 1;
      }
      index := Some(roc * SEQ_SPACE + seqNo);
    }

    method Check(index: nat) returns (fresh': bool)
      ensures fresh' == View().Check(index)
    {
      if highest.None? || index > highest.value {
        return true;
      }
      var d := highest.value - index;
      fresh' := d < REPLAY_WINDOW && !Bit(bits, d);
    }

    method Record(index: nat)
      modifies this
      ensures View() == old(View()).Record(index)
    {
      if highest.None? {
        highest, bits := Some(index), 1;
      } else if index > highest.value {
        var shift := index - highest.value;
        bits := if shift >= REPLAY_WINDOW then 1 else Or(Low(Shl(bits, shift), 64), 1);
        highest := Some(index);
      } else if highest.value - index < REPLAY_WINDOW {
        bits := Or(bits, Shl(1, highest.value - index));
      }
    }
  }
}
