# Symbolic layer of a melody-generating LSTM pipeline, in Dafny

This project models the symbolic part of the `music_generation` pipeline. This is
the pure logic around the Keras network and the music21 library:

- **Token encoding and the notes file** (`training/data_extraction.py`). A note
  becomes the string form of its pitch. A chord becomes its normal-order pitch
  classes joined with `.`. The tokens are collected into a set. They are written
  one per line, and read back line by line with the newline removed.
- **Vocabulary and sliding-window dataset** (`prepare_sequences`). The vocabulary
  is `sorted(set(notes))`, and each token's id is its position in that list. The
  stream becomes overlapping windows of `SEQUENCE_LENGTH` = 100 ids. Each window
  is paired with the id that follows it and divided by `n_vocab`.
- **Greedy generation** (`generate_encoded_notes`). From a start window the loop
  repeats four steps: divide the window by `n_vocab`, ask the network for a
  prediction, take the first maximum (`numpy.argmax`), and look its name up in
  `int_to_note`. It then slides the chosen index into the window.
- **Decoding** (`decode_note`, `decode_chord`, `decode_notes_list`). A token with a
  `.` or made of digits only is a chord. Its parts are parsed as pitch classes,
  and it is stamped with offset `0.5 * i`. Any other token is a note named by the
  token.

The trained network is a function parameter `predict: seq<real> -> seq<real>`.
The random start index is a parameter `start` with the precondition that
`randint`'s exclusive bound implies. Python's set iteration order is a parameter
`order` that enumerates the set. Arithmetic on windows is exact `real` arithmetic.

One behaviour is kept exactly as the code does it. The seed window is taken from
`network_input`, which `prepare_sequences` has already divided by `n_vocab`. The
loop divides it by `n_vocab` again (`Generation.SeedIsNormalisedTwice`). The
indices it slides in are raw ids. After one window length of steps, the window
holds only raw ids (`Generation.WindowAfterFill`).

The code raises no error of its own in these cases:
- On a stream no longer than the window, the windowing loop gives zero pairs. The
  one-hot step that follows is not modelled.
- An argmax index with no name is a failed dictionary lookup, a `KeyError`
  (`KeyNotFound`). No range check is made against `n_vocab`.
- Reading the notes file never rejects duplicates or an empty file.
- No check compares the vocabulary size with the number of distinct tokens.

Modules: `Outcomes` (result type), `LexOrder` (Python string order), `Text`
(split, join, decimal digits), `Vocabulary`, `Windowing`, `Generation`,
`Extraction`, `Decoding`.

## Model

| member | source | states |
|---|---|---|
| LexOrder.LessTotal | music_generation/training/data_preparation.py:14 | two different strings are always ordered one way or the other, so sorting has one answer |
| LexOrder.LessTransitive | music_generation/training/data_preparation.py:14 | the string order used by `sorted` is transitive |
| LexOrder.LessIrreflexive | music_generation/training/data_preparation.py:14 | no string sorts before itself |
| Vocabulary.Insert | music_generation/training/data_preparation.py:14 | adding a token to a strictly sorted list keeps it strictly sorted and adds exactly that token; the length grows by one exactly when the token is new |
| Vocabulary.PitchNames | music_generation/training/data_preparation.py:14 | `pitch_names` is strictly sorted (hence duplicate-free), holds exactly the tokens of `notes`, is no longer than `notes`, and is as long as `notes` when `notes` has no duplicates |
| Vocabulary.SortedUnique | music_generation/training/data_preparation.py:14 | two strictly sorted lists with the same elements are equal |
| Vocabulary.PitchNamesDependOnlyOnTokens | music_generation/training/data_preparation.py:14-21 | streams with the same tokens, in any order and with any repetition, give the same `pitch_names` and the same `note_to_int` map |
| Vocabulary.NoteToInt | music_generation/training/data_preparation.py:21 | `note_to_int` has exactly the tokens of `notes` as keys |
| Vocabulary.NoteToIntIsPosition | music_generation/training/data_preparation.py:21 | every id is below the vocabulary size, and the name at that position of `pitch_names` is the token itself |
| Vocabulary.NoteToIntIsInjective | music_generation/training/data_preparation.py:21 | distinct tokens get distinct ids |
| Vocabulary.NoteToIntIsRank | music_generation/training/data_preparation.py:14-21 | the id of a token is the number of distinct tokens that sort before it |
| Vocabulary.IntToNote | music_generation/main.py:20 | `int_to_note` has keys `0 .. len(pitch_names)-1`, maps `k` to `pitch_names[k]`, and its values are exactly the names |
| Vocabulary.IntToNoteInvertsNoteToInt | music_generation/main.py:20 | built from the same stream, `int_to_note` and `note_to_int` are inverse to each other |
| Text.IndexOf | music_generation/main.py:64 | the separator search returns the first occurrence, or the length when there is none |
| Text.JoinContainsSeparator | training/data_extraction.py:52 | `sep.join(parts)` contains the separator exactly when there are two or more parts or some part already holds it |
| Text.Split | music_generation/main.py:64 | `str.split` gives at least one piece, no piece contains the separator, and joining the pieces gives back the string |
| Text.SplitJoin | training/data_extraction.py:52 | splitting a `.`-joined non-empty list of separator-free parts gives back the parts (an empty list joins to `""`, which splits into `[""]`) |
| Text.SplitIntoSeveral | music_generation/main.py:64 | `s.split(sep)` gives two or more pieces exactly when `s` contains the separator |
| Text.SplitAppendSeparator | training/data_extraction.py:65-67 | a separator appended to a text adds exactly one empty piece at the end of its split |
| Text.Decimal | training/data_extraction.py:52 | `str(n)` is a non-empty digit string without a leading zero |
| Text.ParseNat | music_generation/main.py:65 | `int(part)` succeeds exactly on digit strings |
| Text.ParseDecimal | music_generation/main.py:65 | `int(str(n)) == n` for every non-negative `n` |
| Text.DecimalHasNoSeparator | training/data_extraction.py:52 | a decimal string contains neither `.` nor a newline |
| Windowing.Slide | music_generation/main.py:46-47 | append-then-drop-first keeps the window length, shifts every entry one place toward the front, and puts the new entry last for a non-empty window (an empty window stays empty) |
| Windowing.Ids | music_generation/training/data_preparation.py:30 | the id stream is as long as the token stream, and each id is a position of `pitch_names` holding that very token |
| Windowing.Windows | music_generation/training/data_preparation.py:27-31 | the loop gives `max(0, len - L)` pairs; pair `i` has the ids at positions `i .. i+L-1` as its window and the id at `i+L` as its target |
| Windowing.Scale | music_generation/main.py:33 | dividing by `n_vocab` keeps the length and maps every entry in [0, `n_vocab`) into [0, 1) |
| Windowing.PrepareSequencesOf | music_generation/training/data_preparation.py:23-38 | `max(0, len(notes) - L)` inputs and outputs; every input has `L` entries; entry `j` of input `i` is the id of `notes[i+j]` (by Windowing.Ids, its position in `pitch_names`) divided by `n_vocab`; output `i` is the id of `notes[i+L]` |
| Windowing.PrepareSequences | music_generation/training/data_preparation.py:11 | with `SEQUENCE_LENGTH` = 100: `max(0, len(notes) - 100)` windows of exactly 100 entries each |
| Windowing.WindowsOverlap | music_generation/training/data_preparation.py:28-31 | window `i+1` is window `i` slid by target `i`, the same step the generator takes |
| Windowing.NormalisedInUnitInterval | music_generation/training/data_preparation.py:38 | every normalised entry lies in [0, 1) when `n_vocab` is at least the number of distinct tokens |
| Windowing.CallersNormaliseIntoUnitInterval | music_generation/main.py:103-109 | with `n_vocab = len(notes)` as the callers pass it, every normalised entry lies in [0, 1) |
| Windowing.ThreeTokenExample | music_generation/training/data_preparation.py:27-31 | the stream C4 E4 G4 C4 E4 G4 with windows of three gives (0,1,2)->0, (1,2,0)->1, (2,0,1)->2 |
| Generation.Argmax | music_generation/main.py:40 | the chosen position holds the maximum, and every earlier position holds a strictly smaller value (first maximum) |
| Generation.Generate | music_generation/main.py:29-49 | a successful run yields exactly `steps` tokens, each a vocabulary name; a `KeyError` names an index outside `int_to_note` |
| Generation.GenerateEncodedNotes | music_generation/main.py:9-49 | the loop agrees with the step-by-step definition; on success it returns exactly `total_notes` names from `pitch_names`, and a `KeyError` index is at least `len(pitch_names)` |
| Generation.NeverFailsWithinVocabulary | music_generation/main.py:29-49 | when every prediction is non-empty and no wider than `pitch_names`, every argmax index is a key of `int_to_note`, so the loop never raises and yields its tokens |
| Generation.GenerationSucceeds | music_generation/main.py:9-49 | with a network of `n_vocab` outputs (`Dense(units=n_vocab)`) and `n_vocab` equal to the number of names, generation always succeeds with exactly `total_notes` names |
| Generation.GenerateTrace | music_generation/main.py:29-47 | token `k` of a successful run is the name of the first maximum of the prediction for the window at step `k`, which is the seed slid by the indices chosen before |
| Generation.WindowShift | music_generation/main.py:46-47 | sliding the first chosen index into the seed and then following the rest reaches the same windows |
| Generation.WindowAfterFill | music_generation/main.py:46-47 | after at least window-length steps, the window holds only raw indices chosen by the loop |
| Generation.SeedIsNormalisedTwice | music_generation/main.py:25-33 | the first prediction sees each seed id divided by `n_vocab` twice |
| Generation.ConstantPredictorExample | music_generation/main.py:29-49 | a predictor that always favours id 0 yields `C4 C4 C4` from any seed |
| Extraction.DecimalParts | training/data_extraction.py:52 | every pitch class becomes a decimal string that parses back to it and contains no `.` or newline |
| Extraction.ChordToken | training/data_extraction.py:52 | splitting a chord token of a non-empty normal order on `.` gives back the decimal strings of its pitch classes |
| Extraction.Encode | training/data_extraction.py:39-52 | other elements give no token; a note gives its pitch string; a chord gives a token without a newline that has a `.` or is all digits when the normal order is non-empty |
| Extraction.ChordTokenShape | training/data_extraction.py:52 | a chord of two or more pitch classes has a `.` in its token; a chord of one pitch class is all digits; no chord token has a newline |
| Extraction.CollectTokens | training/data_extraction.py:20-52 | the set holds exactly the tokens of note and chord elements, and nothing for other elements |
| Extraction.NotesFileContent | training/data_extraction.py:55-57 | the written text is empty exactly for an empty list, and otherwise ends with a newline |
| Extraction.ReadNotesFile | training/data_extraction.py:62-69 | no entry read back contains a newline |
| Extraction.ContentIsJoin | training/data_extraction.py:55-57 | the file text is the tokens joined by newlines with a final newline |
| Extraction.WriteThenRead | training/data_extraction.py:55-69 | reading the written file gives back the list, provided no token contains a newline |
| Extraction.ReadThenWrite | training/data_extraction.py:55-69 | writing what was read reproduces any text that is empty or ends with a newline |
| Extraction.ReadThenWriteUnterminated | training/data_extraction.py:62-69 | a last line without a newline is still read as an entry: the entries are the text's `\n`-separated pieces, the same as for the text with a newline added, and writing them back adds that newline |
| Extraction.GenerateNotesSet | training/data_extraction.py:19-59 | the returned list has no duplicates and holds exactly the extracted tokens; the file reads back as that same list when no token contains a newline |
| Decoding.IsChordPattern | music_generation/main.py:87 | a token counts as a chord exactly when it splits on `.` into two or more parts or is a single number |
| Decoding.DecodeNote | music_generation/main.py:51-57 | the token becomes a note, and that note's pitch encodes back to the token |
| Decoding.ParseParts | music_generation/main.py:64-66 | parsing succeeds exactly when every part is a digit string; it then gives one pitch class per part, in order; otherwise the error names the first bad part |
| Decoding.DecodeChord | music_generation/main.py:59-70 | `decode_chord` succeeds exactly when every `.`-separated part is a number; it then yields a chord with one pitch class per part, each the parsed part, at the given offset |
| Decoding.DecodeElement | music_generation/main.py:86-89 | one token decodes exactly when it is a note or a chord whose parts are all numbers; the event is a chord exactly when the token has a `.` or is all digits; a note is named by the token |
| Decoding.DecodedAsCons | music_generation/main.py:85-93 | one decoded token followed by a run decoded from the next offset (half a beat later) forms a run decoded from this offset |
| Decoding.DecodeFrom | music_generation/main.py:83-93 | one event per token; an event is a chord exactly when its token has a `.` or is all digits; a note keeps the token as its name; the chord at position `i` is decoded at the starting offset plus `0.5 * i`; the run fails exactly when some chord token has a non-numeric part |
| Decoding.DecodeNotesList | music_generation/main.py:72-95 | `decode_notes_list` gives one event per token, in order; chords are recognised by shape and stamped with `0.5 * i`; notes are named by their token; it fails exactly when some chord token has a non-numeric part |
| Decoding.DecodeChordToken | music_generation/main.py:59-70 | a chord token with at least one pitch class is recognised as a chord and decodes to the same pitch classes |
| Decoding.EncodeThenDecode | music_generation/main.py:72-95 | decoding the tokens of extracted notes and chords gives back the pitch names and normal orders, the chord at position `i` at offset `0.5 * i`, provided chords are non-empty and no pitch name looks like a chord token |

## Left out

- Keras model construction, training and checkpointing (`training/data_modelling.py`,
  `music_generation/training/data_training.py`): these are library calls with no logic here.
  The trained network is the `predict` parameter.
- `np_utils.to_categorical`: the library picks the one-hot width from the largest label.
- Windowing.PrepareSequencesOf: targets are returned as ids; their one-hot form is not modelled.
- `numpy.reshape`: it changes only array shapes; windows are flat sequences here.
- Floating-point arithmetic: `real` division is exact, so rounding, NaN and infinities
  are not modelled. Generation.Argmax therefore does not model NaN handling.
- Division by a zero `n_vocab`: numpy yields infinities or NaN instead of raising. The model
  requires `n_vocab > 0` whenever some value is divided by it.
- `numpy.random.randint`: replaced by the `start` parameter and its precondition.
- MIDI parsing (`converter.parse`, `partitionByInstrument`, `recurse`, `flat.notes`) and
  music21's normal-order computation: the elements and their normal orders are inputs.
- music21 `Note`, `Chord` and `Piano` objects: a plain `MusicEvent` datatype stands for
  them. A pitch name is kept as an opaque string, and the stored instrument is dropped.
- Python's set iteration order: unspecified, so it is the `order` parameter of
  Extraction.GenerateNotesSet.
- File opening, writing, reading, `notes_file_exists`, MIDI stream writing and all
  `print` calls: I/O. The notes file is modelled as its text.
- Decoding.DecodeElement: `note.Note(pattern)` raises on a token music21 cannot read as a
  pitch (for example `x` or `H4`). The model accepts every non-chord token as a note, so it
  fails only on a chord part that is not a number.
- Decoding.DecodeFrom: for the same reason, it fails only on a chord part that is not a
  number, never on a note token music21 would reject.
- Decoding.DecodeNotesList: for the same reason, it fails only on a chord part that is not a
  number, never on a note token music21 would reject.
- Extraction.ReadNotesFile: text mode's translation of `\r` and `\r\n` into `\n` is not
  modelled. The model reads the already-translated text.
- Text.ParseNat: `int()` also accepts surrounding whitespace, signs and underscores. The
  model admits ASCII digit strings only.
- Text.IsDigits: `str.isdigit` also accepts non-ASCII digits. The model admits ASCII
  digits only.
- The callers pass a path to the zero-argument `read_notes_file` and `generate_notes_set`
  (`main.py:100`, `data_training.py:29`). That argument mismatch is not modelled.
