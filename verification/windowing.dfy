/** `prepare_sequences`: the token stream becomes overlapping fixed-length
    windows of ids, each paired with the id that follows it, and the windows
    are divided by the vocabulary size. */
module Windowing {
  import opened LexOrder
  import opened Vocabulary

  /** `SEQUENCE_LENGTH`, the number of ids in every window. */
  const SequenceLength: nat := 100

  /** One training example before normalisation: a window of ids and the id after it. */
  datatype Pair = Pair(window: seq<nat>, target: nat)

  /** The training data as `prepare_sequences` returns it, with the targets kept
      as ids (the one-hot step is not modelled). */
  datatype Dataset = Dataset(networkInput: seq<seq<real>>, networkOutput: seq<nat>)

  /** One step of a first-in first-out window: append `x`, drop the oldest entry
      (`numpy.append` followed by `[1:len]`). */
  function Slide<E>(window: seq<E>, x: E): (r: seq<E>)
    ensures |r| == |window|
    ensures forall i :: 0 <= i < |window| - 1 ==> r[i] == window[i + 1]
    ensures |window| > 0 ==> r[|window| - 1] == x
  {
    (window + [x])[1..]
  }

  /** Every token of `notes` replaced by its id: the position in `pitch_names`
      where that token stands. */
  function Ids(notes: seq<string>): (r: seq<nat>)
    ensures |r| == |notes|
    ensures forall k :: 0 <= k < |notes| ==> r[k] < |PitchNames(notes)| && PitchNames(notes)[r[k]] == notes[k]
  {
    NoteToIntIsPosition(notes);
    var m := NoteToInt(notes);
    seq(|notes|, k requires 0 <= k < |notes| => m[notes[k]])
  }

  /** The loop of `prepare_sequences` over a stream of ids: one pair per start
      position that leaves room for a target. */
  function Windows(ids: seq<nat>, len: nat): (r: seq<Pair>)
    ensures |r| == if |ids| > len then |ids| - len else 0
    ensures forall i :: 0 <= i < |r| ==> r[i].window == ids[i..i + len] && r[i].target == ids[i + len]
    decreases |ids|
  {
    if |ids| <= len then []
    else
      var rest := Windows(ids[1..], len);
      assert forall i :: 0 <= i < |rest| ==> rest[i].window == ids[i + 1..i + 1 + len] by {
        forall i | 0 <= i < |rest| ensures rest[i].window == ids[i + 1..i + 1 + len] {
          assert ids[1..][i..i + len] == ids[i + 1..i + 1 + len];
        }
      }
      [Pair(ids[..len], ids[len])] + rest
  }

  /** An id divided by the vocabulary size. */
  function Normalised(id: nat, nVocab: nat): real
    requires nVocab > 0
  {
    id as real / nVocab as real
  }

  lemma NormalisedBounds(id: nat, nVocab: nat)
    requires id < nVocab
    ensures 0.0 <= Normalised(id, nVocab) < 1.0
  {
  }

  /** Divides every entry by the vocabulary size (`x / float(n_vocab)`): an
      entry in [0, n_vocab) lands in [0, 1). */
  function Scale(xs: seq<real>, nVocab: nat): (r: seq<real>)
    requires nVocab > 0
    ensures |r| == |xs|
    ensures forall j :: 0 <= j < |xs| && 0.0 <= xs[j] < nVocab as real ==> 0.0 <= r[j] < 1.0
  {
    seq(|xs|, j requires 0 <= j < |xs| => xs[j] / nVocab as real)
  }

  /** The ids as reals, nothing lost: each entry is a whole number whose floor
      is the id. */
  function AsReals(ids: seq<nat>): (r: seq<real>)
    ensures |r| == |ids|
    ensures forall j :: 0 <= j < |ids| ==> r[j].Floor == ids[j] && r[j] == r[j].Floor as real
  {
    seq(|ids|, j requires 0 <= j < |ids| => ids[j] as real)
  }

  /** The windows of `pairs`, each divided by the vocabulary size. */
  function NormaliseWindows(pairs: seq<Pair>, nVocab: nat): (r: seq<seq<real>>)
    requires |pairs| > 0 ==> nVocab > 0
    ensures |r| == |pairs|
    ensures forall i :: 0 <= i < |r| ==> |r[i]| == |pairs[i].window|
    ensures forall i, j :: 0 <= i < |r| && 0 <= j < |pairs[i].window| ==>
      r[i][j] == Normalised(pairs[i].window[j], nVocab)
  {
    seq(|pairs|, i requires 0 <= i < |pairs| => Scale(AsReals(pairs[i].window), nVocab))
  }

  /** The dataset built from a stream of ids with window length `len`. */
  function WindowDataset(ids: seq<nat>, nVocab: nat, len: nat): (d: Dataset)
    requires |ids| > len ==> nVocab > 0
    ensures |d.networkInput| == |d.networkOutput| == if |ids| > len then |ids| - len else 0
    ensures forall i :: 0 <= i < |d.networkInput| ==> |d.networkInput[i]| == len
    ensures forall i, j :: 0 <= i < |d.networkInput| && 0 <= j < len ==>
      d.networkInput[i][j] == Normalised(ids[i + j], nVocab)
    ensures forall i :: 0 <= i < |d.networkOutput| ==> d.networkOutput[i] == ids[i + len]
  {
    var pairs := Windows(ids, len);
    var input := NormaliseWindows(pairs, nVocab);
    forall i, j | 0 <= i < |pairs| && 0 <= j < len
      ensures input[i][j] == Normalised(ids[i + j], nVocab)
    {
      assert pairs[i].window[j] == ids[i + j];
    }
    Dataset(input, seq(|pairs|, i requires 0 <= i < |pairs| => pairs[i].target))
  }

  /** `prepare_sequences` with window length `len`. Division by `n_vocab` only
      happens when there is at least one window. */
  function PrepareSequencesOf(notes: seq<string>, nVocab: nat, len: nat): (d: Dataset)
    requires |notes| > len ==> nVocab > 0
    ensures |d.networkInput| == |d.networkOutput| == if |notes| > len then |notes| - len else 0
    ensures forall i :: 0 <= i < |d.networkInput| ==> |d.networkInput[i]| == len
    ensures forall i, j :: 0 <= i < |d.networkInput| && 0 <= j < len ==>
      d.networkInput[i][j] == Normalised(Ids(notes)[i + j], nVocab)
    ensures forall i :: 0 <= i < |d.networkOutput| ==> d.networkOutput[i] == Ids(notes)[i + len]
  {
    WindowDataset(Ids(notes), nVocab, len)
  }

  /** `prepare_sequences` as written, with `SEQUENCE_LENGTH` = 100. */
  function PrepareSequences(notes: seq<string>, nVocab: nat): (d: Dataset)
    requires |notes| > SequenceLength ==> nVocab > 0
    ensures |d.networkInput| == |d.networkOutput| == if |notes| > 100 then |notes| - 100 else 0
    ensures forall i :: 0 <= i < |d.networkInput| ==> |d.networkInput[i]| == 100
  {
    PrepareSequencesOf(notes, nVocab, SequenceLength)
  }

  /** Neighbouring windows overlap: the next window is this one slid by its target. */
  lemma WindowsOverlap(ids: seq<nat>, len: nat, i: nat)
    requires i + 1 < |Windows(ids, len)|
    ensures Windows(ids, len)[i + 1].window == Slide(Windows(ids, len)[i].window, Windows(ids, len)[i].target)
  {
    var r := Windows(ids, len);
    assert Slide(r[i].window, r[i].target) == ids[i + 1..i + 1 + len];
  }

  /** Every normalised value is a fraction in [0, 1) once `n_vocab` is at least
      the number of distinct tokens. */
  lemma NormalisedInUnitInterval(notes: seq<string>, nVocab: nat, len: nat)
    requires nVocab >= |PitchNames(notes)|
    requires |notes| > len ==> nVocab > 0
    ensures forall i, j :: 0 <= i < |PrepareSequencesOf(notes, nVocab, len).networkInput| && 0 <= j < len ==>
      0.0 <= PrepareSequencesOf(notes, nVocab, len).networkInput[i][j] < 1.0
  {
    var d := PrepareSequencesOf(notes, nVocab, len);
    forall i, j | 0 <= i < |d.networkInput| && 0 <= j < len
      ensures 0.0 <= d.networkInput[i][j] < 1.0
    {
      NormalisedBounds(Ids(notes)[i + j], nVocab);
    }
  }

  /** The callers pass `len(notes)` as `n_vocab`, which always satisfies the bound above. */
  lemma CallersNormaliseIntoUnitInterval(notes: seq<string>)
    ensures forall i, j :: 0 <= i < |PrepareSequences(notes, |notes|).networkInput| && 0 <= j < SequenceLength ==>
      0.0 <= PrepareSequences(notes, |notes|).networkInput[i][j] < 1.0
  {
    NormalisedInUnitInterval(notes, |notes|, SequenceLength);
  }

  /** A six-token stream with windows of three: three pairs, each window the
      ids of three consecutive tokens and the target the id after them. */
  lemma ThreeTokenExample(notes: seq<string>)
    requires notes == ["C4", "E4", "G4", "C4", "E4", "G4"]
    ensures Windows(Ids(notes), 3) == [Pair([0, 1, 2], 0), Pair([1, 2, 0], 1), Pair([2, 0, 1], 2)]
  {
    ExampleIds(notes);
    ExampleWindows(Ids(notes));
  }

  lemma ExampleWindows(ids: seq<nat>)
    requires ids == [0, 1, 2, 0, 1, 2]
    ensures Windows(ids, 3) == [Pair([0, 1, 2], 0), Pair([1, 2, 0], 1), Pair([2, 0, 1], 2)]
  {
    var r := Windows(ids, 3);
    assert |r| == 3;
    assert ids[0..3] == [0, 1, 2] && ids[1..4] == [1, 2, 0] && ids[2..5] == [2, 0, 1];
  }

  lemma ExampleNames(notes: seq<string>)
    requires notes == ["C4", "E4", "G4", "C4", "E4", "G4"]
    ensures PitchNames(notes) == ["C4", "E4", "G4"]
  {
    var names := ["C4", "E4", "G4"];
    assert Less("C4", "E4") && Less("E4", "G4") && Less("C4", "G4");
    assert StrictlySorted(names);
    assert forall t :: t in PitchNames(notes) <==> t in names;
    SortedUnique(PitchNames(notes), names);
  }

  lemma ExampleIdMap(notes: seq<string>)
    requires notes == ["C4", "E4", "G4", "C4", "E4", "G4"]
    ensures notes[0] == "C4" && notes[1] == "E4" && notes[2] == "G4"
    ensures NoteToInt(notes)["C4"] == 0 && NoteToInt(notes)["E4"] == 1 && NoteToInt(notes)["G4"] == 2
  {
    var names := ["C4", "E4", "G4"];
    ExampleNames(notes);
    NoteToIntIsPosition(notes);
    var m := NoteToInt(notes);
    assert names[m["C4"]] == "C4" && names[m["E4"]] == "E4" && names[m["G4"]] == "G4";
  }

  lemma ExampleIds(notes: seq<string>)
    requires notes == ["C4", "E4", "G4", "C4", "E4", "G4"]
    ensures Ids(notes) == [0, 1, 2, 0, 1, 2]
  {
    ExampleIdMap(notes);
  }
}
