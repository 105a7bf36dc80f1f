/** The shape every batch tool shares: each input either produces one output
    (shown in the gallery and written into the zip archive) or adds one
    `[base] ... failed` line to the log; the archive exists exactly when
    something was produced, and the log reads "OK" exactly when nothing failed. */
module Batch {
  import opened Wrappers
  import opened Text
  import opened FileUtils

  /** An output file: its name and its encoded bytes. */
  type Entry = (string, Bytes)

  /** What handling one input gives: an output, or a log line about it. */
  datatype Outcome = Produced(entry: Entry) | Failed(base: string, reason: string)

  /** The log line of a failed input: `f"[{base}] {reason}"`. */
  function LogLine(base: string, reason: string): (r: string)
    ensures |r| >= 1 && r[0] == '['
  {
    "[" + base + "] " + reason
  }

  /** What a batch tool returns: the gallery (each shown output stands for the
      entry it previews), the zip archive, and the log text. */
  datatype BatchResult = BatchResult(gallery: seq<Entry>, archive: Option<Archive>, log: string)

  /** The answer to an empty input. */
  const NO_INPUT: BatchResult := BatchResult([], None, "No input files.")

  /** The outputs, in input order. */
  function Successes(outs: seq<Outcome>): (r: seq<Entry>)
    ensures |r| <= |outs|
    ensures (forall k :: 0 <= k < |outs| ==> outs[k].Produced?) ==> |r| == |outs|
  {
    if outs == [] then []
    else
      var rest := Successes(outs[..|outs| - 1]);
      match outs[|outs| - 1]
      case Produced(e) => rest + [e]
      case Failed(_, _) => rest
  }

  /** The log lines, in input order. */
  function Failures(outs: seq<Outcome>): (r: seq<string>)
    ensures |r| <= |outs|
    ensures forall k :: 0 <= k < |r| ==> |r[k]| >= 1 && r[k][0] == '['
  {
    if outs == [] then []
    else
      var rest := Failures(outs[..|outs| - 1]);
      match outs[|outs| - 1]
      case Produced(_) => rest
      case Failed(b, why) => rest + [LogLine(b, why)]
  }

  /** `"\n".join(logs) if logs else "OK"`. */
  function LogText(lines: seq<string>): string {
    if lines == [] then "OK" else Join(lines, '\n')
  }

  /** The result of a batch whose inputs had the given outcomes: there is no
      archive exactly when nothing was produced, and it holds what the gallery
      shows; the log reads "OK" exactly when nothing failed. */
  function Summary(outs: seq<Outcome>): (r: BatchResult)
    ensures r.gallery == Successes(outs)
    ensures r.archive.None? <==> Successes(outs) == []
    ensures r.archive.Some? ==> r.archive.value.entries == r.gallery
    ensures r.log == "OK" <==> Failures(outs) == []
    ensures Failures(outs) != [] ==> r.log == Join(Failures(outs), '\n')
  {
    var fails := Failures(outs);
    assert fails != [] ==> Join(fails, '\n') != "OK" by {
      if fails != [] { JoinedLinesNotOk(fails); }
    }
    var ok := Successes(outs);
    BatchResult(ok, if ok == [] then None else Some(Archive(ok)), LogText(fails))
  }

  /** The outcome of every input, in order. */
  function Outcomes<T>(items: seq<T>, step: T -> Outcome): (r: seq<Outcome>)
    ensures |r| == |items|
    ensures forall i :: 0 <= i < |items| ==> r[i] == step(items[i])
  {
    seq(|items|, i requires 0 <= i < |items| => step(items[i]))
  }

  /** The loop of a batch tool: each input is handled in turn, its output or its
      log line appended, and the archive written from the outputs at the end. */
  method RunBatch<T>(items: seq<T>, step: T -> Outcome) returns (r: BatchResult)
    ensures r == Summary(Outcomes(items, step))
  {
    var gallery: seq<Entry> := [];
    var zipItems: seq<Entry> := [];
    var logs: seq<string> := [];
    var outs := Outcomes(items, step);
    for i := 0 to |items|
      invariant gallery == zipItems == Successes(outs[..i])
      invariant logs == Failures(outs[..i])
    {
      assert outs[..i + 1][..i] == outs[..i];
      match step(items[i])
      case Produced(e) =>
        zipItems := zipItems + [e];
        gallery := gallery + [e];
      case Failed(b, why) =>
        logs := logs + [LogLine(b, why)];
    }
    assert outs[..|items|] == outs;
    var archive := ZipBytes(zipItems);
    r := BatchResult(gallery, archive, if logs != [] then Join(logs, '\n') else "OK");
  }

  // ---------------------------------------------------------------------------
  // What every batch result satisfies

  /** Every input is accounted for exactly once: as an output or as a log line. */
  lemma {:induction false} OutcomesCounted(outs: seq<Outcome>)
    ensures |Successes(outs)| + |Failures(outs)| == |outs|
  {
    if outs != [] {
      OutcomesCounted(outs[..|outs| - 1]);
    }
  }

  /** The outputs are exactly the produced entries, in order. */
  lemma {:induction false} SuccessesAreProduced(outs: seq<Outcome>, e: Entry)
    ensures e in Successes(outs) <==> Produced(e) in outs
  {
    if outs != [] {
      var init := outs[..|outs| - 1];
      SuccessesAreProduced(init, e);
      assert outs == init + [outs[|outs| - 1]];
    }
  }

  /** No line was logged exactly when every input produced an output. */
  lemma {:induction false} NoFailureMeansAllProduced(outs: seq<Outcome>)
    ensures Failures(outs) == [] <==> forall i :: 0 <= i < |outs| ==> outs[i].Produced?
  {
    if outs != [] {
      var init := outs[..|outs| - 1];
      NoFailureMeansAllProduced(init);
      assert forall i :: 0 <= i < |init| ==> init[i] == outs[i];
    }
  }

  /** Joining lines that start with '[' cannot give "OK". */
  lemma JoinedLinesNotOk(lines: seq<string>)
    requires |lines| >= 1
    requires forall k :: 0 <= k < |lines| ==> |lines[k]| >= 1 && lines[k][0] == '['
    ensures Join(lines, '\n') != "OK"
  {
    if |lines| > 1 {
      assert Join(lines, '\n')[0] == lines[0][0];
    }
  }

  /** One input gives one output or one log line and nothing else. */
  lemma SingleInput(o: Outcome)
    ensures o.Produced? ==> Summary([o]) == BatchResult([o.entry], Some(Archive([o.entry])), "OK")
    ensures o.Failed? ==> Summary([o]) == BatchResult([], None, LogLine(o.base, o.reason))
  {
    var one := [o];
    assert one[..0] == [];
    assert Successes(one) == (if o.Produced? then [o.entry] else []);
    assert Failures(one) == (if o.Failed? then [LogLine(o.base, o.reason)] else []);
  }
}
