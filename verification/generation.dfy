/** `generate_encoded_notes`: greedy autoregressive generation. The trained
    network is the parameter `predict`; the random start index is the parameter
    `start`. */
module Generation {
  import opened Outcomes
  import opened Vocabulary
  import opened Windowing

  /** What the generation loop can raise. */
  datatype GenerateError =
    | EmptyPrediction         // `numpy.argmax` of an empty prediction (ValueError)
    | KeyNotFound(index: nat) // `int_to_note[index]` for an index that is not an id (KeyError)

  /** `numpy.argmax`: the first position holding the largest value. */
  function Argmax(p: seq<real>): (k: nat)
    requires |p| > 0
    ensures k < |p|
    ensures forall j :: 0 <= j < |p| ==> p[j] <= p[k]
    ensures forall j :: 0 <= j < k ==> p[j] < p[k]
  {
    if |p| == 1 then 0
    else
      var k := Argmax(p[..|p| - 1]);
      if p[|p| - 1] > p[k] then |p| - 1 else k
  }

  /** Puts `out` in front of a successful result; errors pass through. */
  function Prepend(out: seq<string>, r: Result<seq<string>, GenerateError>): Result<seq<string>, GenerateError>
  {
    match r
    case Ok(rest) => Ok(out + rest)
    case Err(e) => Err(e)
  }

  lemma PrependNothing(r: Result<seq<string>, GenerateError>)
    ensures Prepend([], r) == r
  {
    if r.Ok? {
      assert [] + r.value == r.value;
    }
  }

  lemma PrependTwice(a: seq<string>, b: seq<string>, r: Result<seq<string>, GenerateError>)
    ensures Prepend(a, Prepend(b, r)) == Prepend(a + b, r)
  {
    if r.Ok? {
      assert a + (b + r.value) == (a + b) + r.value;
    }
  }

  /** `steps` iterations of the generation loop from window `pattern`: scale the
      window, predict, take the argmax, look it up, slide the raw index in. */
  function Generate(steps: nat, predict: seq<real> -> seq<real>, pattern: seq<real>,
                    intToNote: map<nat, string>, nVocab: nat): (r: Result<seq<string>, GenerateError>)
    requires steps > 0 ==> nVocab > 0
    ensures r.Ok? ==> |r.value| == steps
    ensures r.Ok? ==> forall k :: 0 <= k < steps ==> r.value[k] in intToNote.Values
    ensures r.Err? && r.error.KeyNotFound? ==> r.error.index !in intToNote
    decreases steps
  {
    if steps == 0 then Ok([])
    else
      var prediction := predict(Scale(pattern, nVocab));
      if |prediction| == 0 then Err(EmptyPrediction)
      else
        var index := Argmax(prediction);
        if index !in intToNote then Err(KeyNotFound(index))
        else Prepend([intToNote[index]], Generate(steps - 1, predict, Slide(pattern, index as real), intToNote, nVocab))
  }

  /** The loop only fails on a missing key: when every prediction is non-empty
      and no wider than the vocabulary, every argmax is an id and the run
      yields its tokens. */
  lemma {:induction false} NeverFailsWithinVocabulary(steps: nat, predict: seq<real> -> seq<real>, pattern: seq<real>,
                                                      pitchNames: seq<string>, nVocab: nat)
    requires steps > 0 ==> nVocab > 0
    requires forall w :: 0 < |predict(w)| <= |pitchNames|
    ensures Generate(steps, predict, pattern, IntToNote(pitchNames), nVocab).Ok?
    decreases steps
  {
    if steps > 0 {
      var index := Argmax(predict(Scale(pattern, nVocab)));
      NeverFailsWithinVocabulary(steps - 1, predict, Slide(pattern, index as real), pitchNames, nVocab);
    }
  }

  /** As the program calls it: the network has one output per vocabulary entry
      (`Dense(units=n_vocab)`) and `n_vocab` is the number of names, so
      generation always returns `total_notes` names. */
  lemma GenerationSucceeds(totalNotes: nat, predict: seq<real> -> seq<real>, networkInput: seq<seq<real>>,
                           pitchNames: seq<string>, nVocab: nat, start: nat)
    requires start < |networkInput| - 1
    requires nVocab == |pitchNames| > 0
    requires forall w :: |predict(w)| == nVocab
    ensures Generate(totalNotes, predict, networkInput[start], IntToNote(pitchNames), nVocab).Ok?
    ensures |Generate(totalNotes, predict, networkInput[start], IntToNote(pitchNames), nVocab).value| == totalNotes
  {
    NeverFailsWithinVocabulary(totalNotes, predict, networkInput[start], pitchNames, nVocab);
  }

  /** `generate_encoded_notes` as a loop. `start` stands for
      `numpy.random.randint(0, len(network_input) - 1)`, whose upper bound is
      exclusive, so at least two windows must exist. */
  method GenerateEncodedNotes(totalNotes: nat, predict: seq<real> -> seq<real>, networkInput: seq<seq<real>>,
                              pitchNames: seq<string>, nVocab: nat, start: nat)
    returns (r: Result<seq<string>, GenerateError>)
    requires start < |networkInput| - 1
    requires totalNotes > 0 ==> nVocab > 0
    ensures r == Generate(totalNotes, predict, networkInput[start], IntToNote(pitchNames), nVocab)
    ensures r.Ok? ==> |r.value| == totalNotes
    ensures r.Ok? ==> forall k :: 0 <= k < totalNotes ==> r.value[k] in pitchNames
    ensures r.Err? && r.error.KeyNotFound? ==> r.error.index >= |pitchNames|
  {
    var intToNote := IntToNote(pitchNames);
    var pattern := networkInput[start];
    var output: seq<string> := [];
    var i := 0;
    PrependNothing(Generate(totalNotes, predict, pattern, intToNote, nVocab));
    while i < totalNotes
      invariant i <= totalNotes
      invariant Generate(totalNotes, predict, networkInput[start], intToNote, nVocab)
             == Prepend(output, Generate(totalNotes - i, predict, pattern, intToNote, nVocab))
    {
      var prediction := predict(Scale(pattern, nVocab));
      if |prediction| == 0 {
        return Err(EmptyPrediction);
      }
      var index := Argmax(prediction);
      if index !in intToNote {
        return Err(KeyNotFound(index));
      }
      ghost var rest := Generate(totalNotes - i - 1, predict, Slide(pattern, index as real), intToNote, nVocab);
      PrependTwice(output, [intToNote[index]], rest);
      output := output + [intToNote[index]];
      pattern := Slide(pattern, index as real);
      i := i + 1;
    }
    assert output + [] == output;
    r := Ok(output);
  }

  /** The window the loop holds after `k` steps that chose `ids`: the seed
      followed by the chosen indices, of which the last `|seed|` entries remain. */
  function Window(seed: seq<real>, ids: seq<nat>, k: nat): (w: seq<real>)
    requires k <= |ids|
    ensures |w| == |seed|
  {
    (seed + AsReals(ids[..k]))[k..]
  }

  lemma WindowShift(seed: seq<real>, x: nat, ids: seq<nat>, k: nat)
    requires k <= |ids|
    ensures Window(seed, [x] + ids, k + 1) == Window(Slide(seed, x as real), ids, k)
  {
    var tail := AsReals(ids[..k]);
    assert AsReals(([x] + ids)[..k + 1]) == [x as real] + tail;
    assert (seed + [x as real])[1..] + tail == (seed + [x as real] + tail)[1..];
    assert seed + ([x as real] + tail) == seed + [x as real] + tail;
  }

  /** The loop picks `index` at window `window`: the prediction is non-empty
      and `index` is its first maximum. */
  predicate Chooses(predict: seq<real> -> seq<real>, window: seq<real>, nVocab: nat, index: nat)
    requires nVocab > 0
  {
    var prediction := predict(Scale(window, nVocab));
    |prediction| > 0 && index == Argmax(prediction)
  }

  /** Every token of a successful run is the name of the argmax of the
      prediction for the window at that step, and the windows are the seed slid
      by the chosen indices. */
  lemma {:induction false} GenerateTrace(steps: nat, predict: seq<real> -> seq<real>, seed: seq<real>,
                                         intToNote: map<nat, string>, nVocab: nat)
    returns (ids: seq<nat>)
    requires steps > 0 ==> nVocab > 0
    requires Generate(steps, predict, seed, intToNote, nVocab).Ok?
    ensures |ids| == steps
    ensures forall k :: 0 <= k < steps ==>
      && Chooses(predict, Window(seed, ids, k), nVocab, ids[k])
      && ids[k] in intToNote
      && Generate(steps, predict, seed, intToNote, nVocab).value[k] == intToNote[ids[k]]
    decreases steps
  {
    if steps == 0 {
      ids := [];
    } else {
      var prediction := predict(Scale(seed, nVocab));
      var index := Argmax(prediction);
      var slid := Slide(seed, index as real);
      var out := Generate(steps, predict, seed, intToNote, nVocab).value;
      var outRest := Generate(steps - 1, predict, slid, intToNote, nVocab).value;
      assert out == [intToNote[index]] + outRest;
      var rest := GenerateTrace(steps - 1, predict, slid, intToNote, nVocab);
      ids := [index] + rest;
      assert Window(seed, ids, 0) == seed by {
        assert ids[..0] == [];
        assert AsReals(ids[..0]) == [];
        assert seed + [] == seed;
      }
      forall k | 1 <= k < steps
        ensures Chooses(predict, Window(seed, ids, k), nVocab, ids[k])
        ensures ids[k] in intToNote && out[k] == intToNote[ids[k]]
      {
        WindowShift(seed, index, rest, k - 1);
        assert ids[k] == rest[k - 1];
        assert out[k] == outRest[k - 1];
      }
    }
  }

  /** Once the loop has run at least as many steps as the window is long, the
      window holds only raw indices chosen by the loop. */
  lemma WindowAfterFill(seed: seq<real>, ids: seq<nat>, k: nat)
    requires |seed| <= k <= |ids|
    ensures Window(seed, ids, k) == AsReals(ids[k - |seed|..k])
  {
    var w := Window(seed, ids, k);
    forall j | 0 <= j < |seed|
      ensures w[j] == AsReals(ids[k - |seed|..k])[j]
    {
      assert w[j] == (seed + AsReals(ids[..k]))[k + j];
    }
  }

  /** The seed window comes from `network_input`, which `prepare_sequences`
      already divided by `n_vocab`; the loop divides it again, so the first
      prediction sees each seed id divided by `n_vocab` twice. */
  lemma SeedIsNormalisedTwice(notes: seq<string>, nVocab: nat, start: nat, j: nat)
    requires |notes| > SequenceLength ==> nVocab > 0
    requires start < |PrepareSequences(notes, nVocab).networkInput| && j < SequenceLength
    ensures Scale(PrepareSequences(notes, nVocab).networkInput[start], nVocab)[j]
         == Normalised(NoteToInt(notes)[notes[start + j]], nVocab) / nVocab as real
  {
  }

  /** A test predictor that puts all its weight on id 0 whatever the window. */
  function FirstIdPredictor(window: seq<real>): seq<real>
  {
    [1.0, 0.0, 0.0]
  }

  /** With a predictor that always puts all its weight on id 0, every step
      emits the first name, whatever the seed. */
  lemma ConstantPredictorExample(seed: seq<real>)
    ensures Generate(3, FirstIdPredictor, seed, IntToNote(["C4", "E4", "G4"]), 3)
         == Ok(["C4", "C4", "C4"])
  {
    var m := IntToNote(["C4", "E4", "G4"]);
    assert 0 in m && m[0] == "C4";
    var s1 := Slide(seed, 0 as real);
    var s2 := Slide(s1, 0 as real);
    var s3 := Slide(s2, 0 as real);
    assert Argmax(FirstIdPredictor(Scale(s2, 3))) == 0;
    assert Generate(1, FirstIdPredictor, s2, m, 3) == Prepend(["C4"], Generate(0, FirstIdPredictor, s3, m, 3));
    assert Argmax(FirstIdPredictor(Scale(s1, 3))) == 0;
    assert Generate(2, FirstIdPredictor, s1, m, 3) == Prepend(["C4"], Generate(1, FirstIdPredictor, s2, m, 3));
    assert Argmax(FirstIdPredictor(Scale(seed, 3))) == 0;
    assert Generate(3, FirstIdPredictor, seed, m, 3) == Prepend(["C4"], Generate(2, FirstIdPredictor, s1, m, 3));
    assert ["C4"] + [] == ["C4"];
    assert ["C4"] + ["C4"] == ["C4", "C4"];
    assert ["C4"] + ["C4", "C4"] == ["C4", "C4", "C4"];
  }
}
