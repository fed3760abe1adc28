/**
 * The message protocol between a background job and the controller
 * (`CompressMessage` in src/lib.rs) and the shape every job's stream has.
 */
module Protocol {

  /** One message sent by a job. Sizes are `u64` in the source and unbounded here. */
  datatype CompressMessage =
    | Progress(bytesProcessed: nat, totalBytes: nat)
    | Finished(originalSize: nat, compressedSize: nat, outputPath: string)
    | Error(message: string)
  {
    /** `Finished` and `Error` close a job's stream. */
    predicate IsTerminal() {
      !Progress?
    }
  }

  /** A job's stream: some `Progress` messages followed by exactly one terminal message. */
  predicate WellFormedStream(msgs: seq<CompressMessage>) {
    |msgs| > 0 &&
    msgs[|msgs| - 1].IsTerminal() &&
    forall i :: 0 <= i < |msgs| - 1 ==> msgs[i].Progress?
  }

  /** Later `Progress` messages report strictly more bytes than earlier ones. */
  predicate ProgressIncreasing(msgs: seq<CompressMessage>) {
    forall i, j ::
      0 <= i < j < |msgs| && msgs[i].Progress? && msgs[j].Progress? ==>
        msgs[i].bytesProcessed < msgs[j].bytesProcessed
  }

  /** Every `Progress` message carries the same total. */
  predicate ProgressTotal(msgs: seq<CompressMessage>, total: nat) {
    forall i :: 0 <= i < |msgs| && msgs[i].Progress? ==> msgs[i].totalBytes == total
  }

  /** Number of terminal messages in a stream. */
  function TerminalCount(msgs: seq<CompressMessage>): nat {
    if msgs == [] then 0
    else TerminalCount(msgs[..|msgs| - 1]) + (if msgs[|msgs| - 1].IsTerminal() then 1 else 0)
  }

  lemma {:induction false} NoTerminalAmongProgress(msgs: seq<CompressMessage>)
    requires forall i :: 0 <= i < |msgs| ==> msgs[i].Progress?
    ensures TerminalCount(msgs) == 0
  {
    if msgs != [] {
      NoTerminalAmongProgress(msgs[..|msgs| - 1]);
    }
  }

  /**
   * A well-formed stream holds exactly one terminal message, nothing follows it
   * (so nothing follows an `Error`), and it ends in `Finished` exactly when it holds no `Error`.
   */
  lemma {:induction false} ExactlyOneTerminal(msgs: seq<CompressMessage>)
    requires WellFormedStream(msgs)
    ensures TerminalCount(msgs) == 1
    ensures forall i :: 0 <= i < |msgs| && msgs[i].IsTerminal() ==> i == |msgs| - 1
    ensures (exists i :: 0 <= i < |msgs| && msgs[i].Finished?) <==> !(exists i :: 0 <= i < |msgs| && msgs[i].Error?)
  {
    NoTerminalAmongProgress(msgs[..|msgs| - 1]);
    var last := |msgs| - 1;
    if msgs[last].Finished? {
      assert exists i :: 0 <= i < |msgs| && msgs[i].Finished? by { assert msgs[last].Finished?; }
    } else {
      assert exists i :: 0 <= i < |msgs| && msgs[i].Error? by { assert msgs[last].Error?; }
    }
  }
}
