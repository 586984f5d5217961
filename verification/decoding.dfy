/** `decode_note`, `decode_chord` and `decode_notes_list`: generated tokens back
    into notes and chords. */
module Decoding {
  import opened Outcomes
  import opened Text
  import opened Extraction

  /** The music21 objects the decoder builds: a note from a pitch name, or a
      chord of notes built from pitch-class numbers, stamped with an offset. */
  datatype MusicEvent =
    | Note(name: string)
    | Chord(pitchClasses: seq<nat>, offset: real)

  /** `int(part)` raised `ValueError` on a part of a chord token. */
  datatype DecodeError = InvalidChordPart(part: string)

  /** The decoder's shape test, `'.' in pattern or pattern.isdigit()`: the token
      splits into two or more `.`-parts, or it is a single number. */
  predicate IsChordPattern(pattern: string): (b: bool)
    ensures b <==> |Split(pattern, '.')| >= 2 || IsDigits(pattern)
  {
    SplitIntoSeveral(pattern, '.');
    '.' in pattern || IsDigits(pattern)
  }

  /** A token the decoder accepts: a note, or a chord whose every part is a number. */
  predicate Decodable(pattern: string)
  {
    IsChordPattern(pattern) ==> forall part :: part in Split(pattern, '.') ==> IsDigits(part)
  }

  /** `decode_note`: the pattern is taken as a pitch name (the instrument is not
      modelled); the note built encodes back to the pattern. */
  function DecodeNote(pattern: string): (r: MusicEvent)
    ensures r.Note?
    ensures Encode(NoteElement(r.name)) == Some(pattern)
  {
    Note(pattern)
  }

  /** Part `i` is the first part that is not a number. */
  predicate FirstBadPart(parts: seq<string>, i: int)
  {
    && 0 <= i < |parts|
    && !IsDigits(parts[i])
    && forall j :: 0 <= j < i ==> IsDigits(parts[j])
  }

  /** `int(part)` for each part in order; the first part that is not a number is the error. */
  function ParseParts(parts: seq<string>): (r: Result<seq<nat>, DecodeError>)
    ensures r.Ok? <==> forall i :: 0 <= i < |parts| ==> IsDigits(parts[i])
    ensures r.Ok? ==> |r.value| == |parts|
    ensures r.Ok? ==> forall i :: 0 <= i < |parts| ==> ParseNat(parts[i]) == Some(r.value[i])
    ensures r.Err? ==> exists i :: FirstBadPart(parts, i) && r.error == InvalidChordPart(parts[i])
  {
    if |parts| == 0 then Ok([])
    else match ParseNat(parts[0])
      case None => Err(InvalidChordPart(parts[0]))
      case Some(n) =>
        match ParseParts(parts[1..])
        case Ok(rest) => Ok([n] + rest)
        case Err(e) =>
          var i :| FirstBadPart(parts[1..], i) && e == InvalidChordPart(parts[1..][i]);
          assert FirstBadPart(parts, i + 1);
          Err(e)
  }

  /** `decode_chord`: one pitch class per `.`-separated part, and the offset. */
  function DecodeChord(pattern: string, offset: real): (r: Result<MusicEvent, DecodeError>)
    ensures r.Ok? <==> forall part :: part in Split(pattern, '.') ==> IsDigits(part)
    ensures r.Ok? ==> r.value.Chord? && r.value.offset == offset
    ensures r.Ok? ==> |r.value.pitchClasses| == |Split(pattern, '.')|
    ensures r.Ok? ==> forall i :: 0 <= i < |Split(pattern, '.')| ==>
      ParseNat(Split(pattern, '.')[i]) == Some(r.value.pitchClasses[i])
  {
    match ParseParts(Split(pattern, '.'))
    case Ok(pitchClasses) => Ok(Chord(pitchClasses, offset))
    case Err(e) => Err(e)
  }

  /** One iteration of `decode_notes_list`: chord by shape, otherwise note. */
  function DecodeElement(pattern: string, offset: real): (r: Result<MusicEvent, DecodeError>)
    ensures r.Ok? <==> Decodable(pattern)
    ensures r.Ok? ==> (r.value.Chord? <==> IsChordPattern(pattern))
    ensures r.Ok? && r.value.Note? ==> r.value.name == pattern
    ensures r.Ok? && r.value.Chord? ==> DecodeChord(pattern, offset) == r
  {
    if IsChordPattern(pattern) then DecodeChord(pattern, offset)
    else Ok(DecodeNote(pattern))
  }

  /** The tokens are decodable and `events` satisfy the decoder's promise for
      each of them, from offset `offset` on. */
  predicate DecodedAs(encoded: seq<string>, events: seq<MusicEvent>, offset: real)
  {
    && |events| == |encoded|
    && forall i :: 0 <= i < |encoded| ==>
      && (events[i].Chord? <==> IsChordPattern(encoded[i]))
      && (events[i].Note? ==> events[i].name == encoded[i])
      && (events[i].Chord? ==> DecodeChord(encoded[i], offset + 0.5 * i as real) == Ok(events[i]))
  }

  /** The loop of `decode_notes_list` from the token at offset `offset` on:
      every token advances the offset by 0.5, and only chords carry it. */
  function DecodeFrom(encoded: seq<string>, offset: real): (r: Result<seq<MusicEvent>, DecodeError>)
    ensures r.Ok? <==> forall i :: 0 <= i < |encoded| ==> Decodable(encoded[i])
    ensures r.Ok? ==> DecodedAs(encoded, r.value, offset)
    decreases |encoded|
  {
    if |encoded| == 0 then Ok([])
    else
      match DecodeElement(encoded[0], offset)
      case Err(e) => Err(e)
      case Ok(event) =>
        var tail := encoded[1..];
        match DecodeFrom(tail, offset + 0.5)
        case Err(e) =>
          var i :| 0 <= i < |tail| && !Decodable(tail[i]);
          assert encoded[i + 1] == tail[i];
          Err(e)
        case Ok(rest) =>
          DecodedAsCons(encoded, event, rest, offset);
          Ok([event] + rest)
  }

  lemma DecodedAsCons(encoded: seq<string>, event: MusicEvent, rest: seq<MusicEvent>, offset: real)
    requires |encoded| > 0
    requires DecodeElement(encoded[0], offset) == Ok(event)
    requires DecodedAs(encoded[1..], rest, offset + 0.5)
    ensures DecodedAs(encoded, [event] + rest, offset)
    ensures forall i :: 0 <= i < |encoded| ==> Decodable(encoded[i])
  {
    var r := [event] + rest;
    forall i | 1 <= i < |encoded|
      ensures r[i].Chord? <==> IsChordPattern(encoded[i])
      ensures r[i].Note? ==> r[i].name == encoded[i]
      ensures r[i].Chord? ==> DecodeChord(encoded[i], offset + 0.5 * i as real) == Ok(r[i])
      ensures Decodable(encoded[i])
    {
      assert r[i] == rest[i - 1] && encoded[i] == encoded[1..][i - 1];
      assert offset + 0.5 + 0.5 * (i - 1) as real == offset + 0.5 * i as real;
    }
  }

  /** `decode_notes_list`: offsets start at 0. */
  function DecodeNotesList(encoded: seq<string>): (r: Result<seq<MusicEvent>, DecodeError>)
    ensures r.Ok? <==> forall i :: 0 <= i < |encoded| ==> Decodable(encoded[i])
    ensures r.Ok? ==> |r.value| == |encoded|
    ensures r.Ok? ==> forall i :: 0 <= i < |encoded| ==>
      && (r.value[i].Chord? <==> IsChordPattern(encoded[i]))
      && (r.value[i].Note? ==> r.value[i].name == encoded[i])
      && (r.value[i].Chord? ==> DecodeChord(encoded[i], 0.5 * i as real) == Ok(r.value[i]))
  {
    DecodeFrom(encoded, 0.0)
  }

  /** A chord token is recognised as a chord and decodes to the same pitch classes. */
  lemma DecodeChordToken(normalOrder: seq<nat>, offset: real)
    requires |normalOrder| >= 1
    ensures IsChordPattern(ChordToken(normalOrder))
    ensures DecodeChord(ChordToken(normalOrder), offset) == Ok(Chord(normalOrder, offset))
  {
    ChordTokenShape(normalOrder);
    var r := DecodeChord(ChordToken(normalOrder), offset);
    var parts := DecimalParts(normalOrder);
    assert forall part :: part in parts ==> IsDigits(part);
    assert r.Ok?;
    assert r.value.pitchClasses == normalOrder;
  }

  /** Decoding the tokens of extracted notes and chords gives back the notes and
      the chords' normal orders, the `i`-th chord at offset `0.5 * i`, provided
      every chord has a pitch class and no pitch name looks like a chord token. */
  lemma EncodeThenDecode(elements: seq<MidiElement>, tokens: seq<string>)
    requires |tokens| == |elements|
    requires forall i :: 0 <= i < |elements| ==> Encode(elements[i]) == Some(tokens[i])
    requires forall i :: 0 <= i < |elements| && elements[i].ChordElement? ==> |elements[i].normalOrder| >= 1
    requires forall i :: 0 <= i < |elements| && elements[i].NoteElement? ==> !IsChordPattern(elements[i].pitch)
    ensures DecodeNotesList(tokens).Ok?
    ensures forall i :: 0 <= i < |elements| && elements[i].NoteElement? ==>
      DecodeNotesList(tokens).value[i] == Note(elements[i].pitch)
    ensures forall i :: 0 <= i < |elements| && elements[i].ChordElement? ==>
      DecodeNotesList(tokens).value[i] == Chord(elements[i].normalOrder, 0.5 * i as real)
  {
    forall i | 0 <= i < |elements|
      ensures Decodable(tokens[i])
      ensures elements[i].ChordElement? ==>
        IsChordPattern(tokens[i]) && DecodeChord(tokens[i], 0.5 * i as real) == Ok(Chord(elements[i].normalOrder, 0.5 * i as real))
    {
      if elements[i].ChordElement? {
        DecodeChordToken(elements[i].normalOrder, 0.5 * i as real);
      }
    }
  }
}
