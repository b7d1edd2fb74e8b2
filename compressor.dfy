/** The run-length compressor of `hanno/codegen/compressor.py`. */
module Compressor {
  import opened Wrappers
  import opened Bytes

  /** `(amount, char)`: `amount` copies of the byte `octet`. */
  datatype Run = Run(amount: nat, octet: byte)

  /** The bytes a sequence of runs stands for. */
  function Expand(runs: seq<Run>): (s: seq<byte>)
  {
    if runs == [] then [] else seq(runs[0].amount, _ => runs[0].octet) + Expand(runs[1..])
  }

  lemma {:induction false} ExpandAppend(a: seq<Run>, b: seq<Run>)
    ensures Expand(a + b) == Expand(a) + Expand(b)
  {
    if a == [] {
      assert a + b == b;
    } else {
      assert (a + b)[0] == a[0];
      assert (a + b)[1..] == a[1..] + b;
      ExpandAppend(a[1..], b);
    }
  }

  /** Every run is non-empty and neighbouring runs hold different bytes. */
  predicate Maximal(runs: seq<Run>) {
    && (forall i :: 0 <= i < |runs| ==> runs[i].amount >= 1)
    && (forall i :: 0 < i < |runs| ==> runs[i - 1].octet != runs[i].octet)
  }

  /** The runs `generate_lengths` yields, built up one byte at a time. */
  function RunsOf(source: seq<byte>): seq<Run>
  {
    if source == [] then []
    else
      Extended(RunsOf(source[..|source| - 1]), source[|source| - 1])
  }

  /** One more byte either lengthens the last run or starts a new one. */
  function Extended(runs: seq<Run>, c: byte): seq<Run>
  {
    if runs != [] && runs[|runs| - 1].octet == c
    then runs[..|runs| - 1] + [Run(runs[|runs| - 1].amount + 1, c)]
    else runs + [Run(1, c)]
  }

  /** Extending keeps the runs maximal and adds exactly the byte. */
  lemma ExtendRuns(runs: seq<Run>, c: byte)
    requires Maximal(runs)
    ensures var next := Extended(runs, c);
            Maximal(next) && Expand(next) == Expand(runs) + [c] && next != [] && next[|next| - 1].octet == c
  {
    ExtendMaximal(runs, c);
    ExtendExpand(runs, c);
  }

  lemma ExtendMaximal(runs: seq<Run>, c: byte)
    requires Maximal(runs)
    ensures var next := Extended(runs, c);
            Maximal(next) && next != [] && next[|next| - 1].octet == c
  {
    var next := Extended(runs, c);
    if runs != [] && runs[|runs| - 1].octet == c {
      assert forall i :: 0 <= i < |runs| - 1 ==> next[i] == runs[i];
    } else {
      assert forall i :: 0 <= i < |runs| ==> next[i] == runs[i];
    }
  }

  lemma ExtendExpand(runs: seq<Run>, c: byte)
    ensures Expand(Extended(runs, c)) == Expand(runs) + [c]
  {
    if runs != [] && runs[|runs| - 1].octet == c {
      var init := runs[..|runs| - 1];
      var last := runs[|runs| - 1];
      assert runs == init + [last];
      ExpandAppend(init, [last]);
      ExpandAppend(init, [Run(last.amount + 1, c)]);
      assert Expand([last]) == seq(last.amount, _ => c) + Expand([]);
      assert Expand([Run(last.amount + 1, c)]) == seq(last.amount + 1, _ => c) + Expand([]);
      assert seq(last.amount + 1, _ => c) == seq(last.amount, _ => c) + [c];
    } else {
      ExpandAppend(runs, [Run(1, c)]);
      assert Expand([Run(1, c)]) == [c] + Expand([]);
    }
  }

  /** The runs are maximal and stand for exactly the input. */
  lemma {:induction false} RunsOfCorrect(source: seq<byte>)
    ensures Maximal(RunsOf(source)) && Expand(RunsOf(source)) == source
    ensures source == [] <==> RunsOf(source) == []
  {
    if source != [] {
      var init := source[..|source| - 1];
      RunsOfCorrect(init);
      ExtendRuns(RunsOf(init), source[|source| - 1]);
      assert init + [source[|source| - 1]] == source;
    }
  }

  /** `generate_lengths`: the maximal runs of the input, in order. */
  method GenerateLengths(source: seq<byte>) returns (runs: seq<Run>)
    ensures runs == RunsOf(source)
  {
    runs := [];
    var amount: nat := 1;
    var prevChar: Option<byte> := None;
    var ch: int := -1;
    var i := 0;
    while i < |source|
      invariant 0 <= i <= |source|
      invariant i == 0 ==> runs == [] && prevChar == None && ch == -1
      invariant i > 0 ==> prevChar == Some(source[i - 1]) && ch == source[i - 1] as int
      invariant i > 0 ==> RunsOf(source[..i]) == runs + [Run(amount, source[i - 1])]
    {
      RunsOfNext(source, i);
      var next := source[i];
      ch := next as int;
      if prevChar == Some(next) {
        ExtendedSame(runs, amount, next);
        amount := amount + 1;
      } else {
        if prevChar.Some? {
          ExtendedOther(runs, amount, prevChar.value, next);
          runs := runs + [Run(amount, prevChar.value)];
        }
        amount := 1;
        prevChar := Some(next);
      }
      i := i + 1;
    }
    if ch != -1 {
      runs := runs + [Run(amount, ch as byte)];
    }
    assert source[..|source|] == source;
  }

  lemma RunsOfNext(source: seq<byte>, i: nat)
    requires i < |source|
    ensures RunsOf(source[..i + 1]) == Extended(RunsOf(source[..i]), source[i])
  {
    assert source[..i + 1][..i] == source[..i];
  }

  /** A byte equal to the last run's lengthens it. */
  lemma ExtendedSame(runs: seq<Run>, amount: nat, c: byte)
    ensures Extended(runs + [Run(amount, c)], c) == runs + [Run(amount + 1, c)]
  {
    assert (runs + [Run(amount, c)])[..|runs|] == runs;
  }

  /** A byte different from the last run's starts a new run. */
  lemma ExtendedOther(runs: seq<Run>, amount: nat, p: byte, c: byte)
    requires p != c
    ensures Extended(runs + [Run(amount, p)], c) == runs + [Run(amount, p)] + [Run(1, c)]
  {
  }

  /** One run cut into pieces of at most 255. */
  function Split(amount: nat, ch: byte): (r: seq<Run>)
    decreases amount
  {
    if amount > 0xFF then [Run(0xFF, ch)] + Split(amount - 0xFF, ch) else [Run(amount, ch)]
  }

  /** What `normalise` yields for a stream of runs. */
  function Normalised(stream: seq<Run>): seq<Run>
  {
    if stream == [] then []
    else Normalised(stream[..|stream| - 1]) + Split(stream[|stream| - 1].amount, stream[|stream| - 1].octet)
  }

  lemma {:induction false} SplitCorrect(amount: nat, ch: byte)
    ensures Expand(Split(amount, ch)) == seq(amount, _ => ch)
    ensures forall i :: 0 <= i < |Split(amount, ch)| ==> Split(amount, ch)[i].amount <= 0xFF
    ensures amount >= 1 ==> forall i :: 0 <= i < |Split(amount, ch)| ==> Split(amount, ch)[i].amount >= 1
    decreases amount
  {
    if amount > 0xFF {
      SplitCorrect(amount - 0xFF, ch);
      ExpandAppend([Run(0xFF, ch)], Split(amount - 0xFF, ch));
      assert Expand([Run(0xFF, ch)]) == seq(0xFF, _ => ch);
      assert seq(amount, _ => ch) == seq(0xFF, _ => ch) + seq(amount - 0xFF, _ => ch);
    } else {
      assert Expand([Run(amount, ch)]) == seq(amount, _ => ch) + Expand([]);
    }
  }

  /** Normalising keeps the bytes a stream stands for, and no count exceeds 255;
      non-empty runs stay non-empty. */
  lemma {:induction false} NormalisedCorrect(stream: seq<Run>)
    ensures Expand(Normalised(stream)) == Expand(stream)
    ensures forall i :: 0 <= i < |Normalised(stream)| ==> Normalised(stream)[i].amount <= 0xFF
    ensures (forall i :: 0 <= i < |stream| ==> stream[i].amount >= 1) ==>
              forall i :: 0 <= i < |Normalised(stream)| ==> Normalised(stream)[i].amount >= 1
  {
    if stream != [] {
      var init := stream[..|stream| - 1];
      var last := stream[|stream| - 1];
      var front, back := Normalised(init), Split(last.amount, last.octet);
      assert Normalised(stream) == front + back;
      NormalisedCorrect(init);
      SplitCorrect(last.amount, last.octet);
      ExpandAppend(front, back);
      assert stream == init + [last];
      ExpandAppend(init, [last]);
      assert Expand([last]) == seq(last.amount, _ => last.octet) + Expand([]);
      assert forall i :: |front| <= i < |front + back| ==> (front + back)[i] == back[i - |front|];
    }
  }

  /** `normalise`: every run longer than 255 is cut into pieces of 255 and a rest. */
  method Normalise(stream: seq<Run>) returns (out: seq<Run>)
    ensures out == Normalised(stream)
  {
    out := [];
    for k := 0 to |stream|
      invariant out == Normalised(stream[..k])
    {
      assert stream[..k + 1][..k] == stream[..k];
      var amount := stream[k].amount;
      var ch := stream[k].octet;
      while amount > 0xFF
        invariant out + Split(amount, ch) == Normalised(stream[..k + 1])
      {
        out := out + [Run(0xFF, ch)];
        amount := amount - 0xFF;
      }
      out := out + [Run(amount, ch)];
    }
    assert stream[..|stream|] == stream;
  }

  /** Each normalised run as its count byte followed by its byte. */
  function Pairs(runs: seq<Run>): (r: seq<byte>)
    requires forall i :: 0 <= i < |runs| ==> runs[i].amount <= 0xFF
    ensures |r| == 2 * |runs|
  {
    if runs == [] then [] else [runs[0].amount as byte, runs[0].octet] + Pairs(runs[1..])
  }

  /** `rebuild_stream`: the encoded stream, two bytes per normalised run. */
  function RebuildStream(stream: seq<Run>): (r: seq<byte>)
    ensures |r| == 2 * |Normalised(stream)|
  {
    NormalisedCorrect(stream);
    Pairs(Normalised(stream))
  }

  /** `compress`: the run-length encoding, or the input itself when the encoding
      is not shorter. */
  function Compress(original: seq<byte>): (r: seq<byte>)
    ensures |r| <= |original|
    ensures r == original || |r| < |original|
    ensures r != original ==> r == RebuildStream(RunsOf(original))
  {
    var compressed := RebuildStream(RunsOf(original));
    if |compressed| >= |original| then original else compressed
  }
}
