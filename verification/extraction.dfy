/** `generate_notes_set` and `read_notes_file`: how notes and chords become
    tokens, how the tokens are collected, and the one-token-per-line file. */
module Extraction {
  import opened Outcomes
  import opened Text
  import opened Vocabulary

  /** An element of a parsed part, as far as encoding is concerned: a note with
      the string form of its pitch, a chord with its normal order, or anything
      else (rests, instruments, ...), which is skipped. */
  datatype MidiElement =
    | NoteElement(pitch: string)
    | ChordElement(normalOrder: seq<nat>)
    | OtherElement

  /** The pitch classes written as decimal strings. */
  function DecimalParts(pitchClasses: seq<nat>): (r: seq<string>)
    ensures |r| == |pitchClasses|
    ensures forall i :: 0 <= i < |r| ==> ParseNat(r[i]) == Some(pitchClasses[i])
    ensures forall i :: 0 <= i < |r| ==> '.' !in r[i] && '\n' !in r[i]
  {
    forall n: nat
      ensures ParseNat(Decimal(n)) == Some(n) && '.' !in Decimal(n) && '\n' !in Decimal(n)
    {
      ParseDecimal(n);
      DecimalHasNoSeparator(n);
    }
    seq(|pitchClasses|, i requires 0 <= i < |pitchClasses| => Decimal(pitchClasses[i]))
  }

  /** `'.'.join(str(n) for n in element.normalOrder)`: splitting the token on
      `.` gives back the decimal forms of a non-empty normal order. */
  function ChordToken(normalOrder: seq<nat>): (r: string)
    ensures |normalOrder| >= 1 ==> Split(r, '.') == DecimalParts(normalOrder)
  {
    var parts := DecimalParts(normalOrder);
    assert |normalOrder| >= 1 ==> Split(Join(parts, '.'), '.') == parts by {
      if |normalOrder| >= 1 {
        SplitJoin(parts, '.');
      }
    }
    Join(parts, '.')
  }

  /** The token an element adds to the set, if any: a note by its pitch, a
      chord by a one-line token the decoder's shape test recognises. */
  function Encode(e: MidiElement): (r: Option<string>)
    ensures r.None? <==> e.OtherElement?
    ensures e.NoteElement? ==> r == Some(e.pitch)
    ensures e.ChordElement? ==> '\n' !in r.value
    ensures e.ChordElement? && |e.normalOrder| >= 1 ==> '.' in r.value || IsDigits(r.value)
  {
    match e
    case NoteElement(pitch) => Some(pitch)
    case ChordElement(normalOrder) =>
      ChordTokenShape(normalOrder);
      Some(ChordToken(normalOrder))
    case OtherElement => None
  }

  /** A chord of two or more pitch classes has a `.` in its token; a chord of
      one pitch class has a token of digits only. */
  lemma {:induction false} ChordTokenShape(normalOrder: seq<nat>)
    ensures |normalOrder| >= 2 ==> '.' in ChordToken(normalOrder)
    ensures |normalOrder| == 1 ==> IsDigits(ChordToken(normalOrder))
    ensures '\n' !in ChordToken(normalOrder)
  {
    var parts := DecimalParts(normalOrder);
    JoinKeepsOut(parts, '.', '\n');
    if |normalOrder| >= 2 {
      assert ChordToken(normalOrder) == parts[0] + ['.'] + Join(parts[1..], '.');
      assert ChordToken(normalOrder)[|parts[0]|] == '.';
    } else if |normalOrder| == 1 {
      assert ChordToken(normalOrder) == Decimal(normalOrder[0]);
    }
  }

  /** Joining with a separator adds no character other than the separator. */
  lemma {:induction false} JoinKeepsOut(parts: seq<string>, sep: char, c: char)
    requires c != sep
    requires forall i :: 0 <= i < |parts| ==> c !in parts[i]
    ensures c !in Join(parts, sep)
  {
    if |parts| > 1 {
      JoinKeepsOut(parts[1..], sep, c);
      assert Join(parts, sep) == parts[0] + [sep] + Join(parts[1..], sep);
    }
  }

  /** The set the extraction loop builds over all elements. */
  function CollectTokens(elements: seq<MidiElement>): (r: set<string>)
    ensures forall t :: t in r <==> exists i :: 0 <= i < |elements| && Encode(elements[i]) == Some(t)
  {
    if |elements| == 0 then {}
    else
      var init := elements[..|elements| - 1];
      var last := elements[|elements| - 1];
      var before := CollectTokens(init);
      assert forall i :: 0 <= i < |init| ==> Encode(init[i]) == Encode(elements[i]);
      match Encode(last)
      case Some(t) => before + {t}
      case None => before
  }

  /** `order` lists every member of `tokens` exactly once: one iteration order
      of a Python set. */
  predicate Enumerates(order: seq<string>, tokens: set<string>)
  {
    && Distinct(order)
    && (forall t :: t in order ==> t in tokens)
    && (forall t :: t in tokens ==> t in order)
  }

  /** What the file holds: every token followed by a newline, in order. The
      text is empty exactly for an empty list and otherwise ends with a newline. */
  function NotesFileContent(notes: seq<string>): (r: string)
    ensures |r| == 0 <==> |notes| == 0
    ensures |r| > 0 ==> r[|r| - 1] == '\n'
  {
    if |notes| == 0 then "" else notes[0] + "\n" + NotesFileContent(notes[1..])
  }

  /** `read_notes_file` on the file's text: one entry per line, newline removed.
      A final line without a newline still counts; an empty text has no lines. */
  function ReadNotesFile(content: string): (r: seq<string>)
    ensures forall i :: 0 <= i < |r| ==> '\n' !in r[i]
  {
    if |content| == 0 then []
    else
      var lines := Split(content, '\n');
      if |lines[|lines| - 1]| == 0 then lines[..|lines| - 1] else lines
  }

  lemma {:induction false} ContentIsJoin(notes: seq<string>)
    requires |notes| >= 1
    ensures NotesFileContent(notes) == Join(notes + [""], '\n')
  {
    if |notes| == 1 {
      assert notes + [""] == [notes[0], ""];
    } else {
      ContentIsJoin(notes[1..]);
      assert (notes + [""])[1..] == notes[1..] + [""];
    }
  }

  /** Reading the written file gives back the list, provided no token contains
      a newline. */
  lemma WriteThenRead(notes: seq<string>)
    requires forall i :: 0 <= i < |notes| ==> '\n' !in notes[i]
    ensures ReadNotesFile(NotesFileContent(notes)) == notes
  {
    if |notes| > 0 {
      ContentIsJoin(notes);
      var parts := notes + [""];
      assert forall i :: 0 <= i < |parts| ==> '\n' !in parts[i];
      SplitJoin(parts, '\n');
      assert |NotesFileContent(notes)| > 0;
      assert parts[..|parts| - 1] == notes;
    }
  }

  lemma {:induction false} JoinEndsWithLastPart(parts: seq<string>, sep: char)
    requires |parts| >= 1 && |parts[|parts| - 1]| > 0
    ensures |Join(parts, sep)| > 0
    ensures Join(parts, sep)[|Join(parts, sep)| - 1] == parts[|parts| - 1][|parts[|parts| - 1]| - 1]
  {
    if |parts| > 1 {
      JoinEndsWithLastPart(parts[1..], sep);
    }
  }

  /** Writing what was read reproduces a text that is empty or ends with a newline. */
  lemma ReadThenWrite(content: string)
    requires |content| == 0 || content[|content| - 1] == '\n'
    ensures NotesFileContent(ReadNotesFile(content)) == content
  {
    if |content| > 0 {
      var lines := Split(content, '\n');
      var last := lines[|lines| - 1];
      if |last| > 0 {
        JoinEndsWithLastPart(lines, '\n');
      }
      assert last == "";
      var init := lines[..|lines| - 1];
      assert init + [""] == lines;
      if |init| > 0 {
        ContentIsJoin(init);
      }
    }
  }

  /** A last line without a newline is still read as an entry: writing what was
      read gives back the text with the missing newline added. */
  lemma ReadThenWriteUnterminated(content: string)
    requires |content| > 0 && content[|content| - 1] != '\n'
    ensures ReadNotesFile(content) == Split(content, '\n')
    ensures ReadNotesFile(content) == ReadNotesFile(content + "\n")
    ensures NotesFileContent(ReadNotesFile(content)) == content + "\n"
  {
    ReadUnterminated(content);
    ReadAppendedNewline(content);
    ReadThenWrite(content + "\n");
  }

  /** Without a final newline the last piece of the split is not empty, so it is kept. */
  lemma ReadUnterminated(content: string)
    requires |content| > 0 && content[|content| - 1] != '\n'
    ensures ReadNotesFile(content) == Split(content, '\n')
  {
    LastLineNotEmpty(content);
    ReadKeepsLastLine(content);
  }

  lemma LastLineNotEmpty(content: string)
    requires |content| > 0 && content[|content| - 1] != '\n'
    ensures |Split(content, '\n')[|Split(content, '\n')| - 1]| > 0
  {
    LastPartNotEmpty(Split(content, '\n'), '\n');
  }

  lemma ReadKeepsLastLine(content: string)
    requires |content| > 0
    requires |Split(content, '\n')[|Split(content, '\n')| - 1]| > 0
    ensures ReadNotesFile(content) == Split(content, '\n')
  {
  }

  /** A join that does not end with the separator has a non-empty last part. */
  lemma LastPartNotEmpty(parts: seq<string>, sep: char)
    requires |parts| >= 1
    requires |Join(parts, sep)| > 0 && Join(parts, sep)[|Join(parts, sep)| - 1] != sep
    ensures parts[|parts| - 1] != ""
  {
    if |parts| >= 2 && parts[|parts| - 1] == "" {
      JoinEndsWithSeparator(parts, sep);
    }
  }

  /** Appending the newline adds one empty piece, which reading drops again. */
  lemma ReadAppendedNewline(content: string)
    requires |content| > 0
    ensures ReadNotesFile(content + "\n") == Split(content, '\n')
  {
    var lines := Split(content, '\n');
    SplitAppendSeparator(content, '\n');
    assert (lines + [""])[..|lines|] == lines;
  }

  /** The file text and the returned list of `generate_notes_set`. */
  datatype NotesSet = NotesSet(fileContent: string, notes: seq<string>)

  /** `generate_notes_set`: the file and the returned list both follow the set's
      iteration order, given here as `order`. */
  function GenerateNotesSet(elements: seq<MidiElement>, order: seq<string>): (r: NotesSet)
    requires Enumerates(order, CollectTokens(elements))
    ensures Distinct(r.notes)
    ensures forall t :: t in r.notes <==> exists i :: 0 <= i < |elements| && Encode(elements[i]) == Some(t)
    ensures (forall i :: 0 <= i < |r.notes| ==> '\n' !in r.notes[i]) ==> ReadNotesFile(r.fileContent) == r.notes
  {
    var content := NotesFileContent(order);
    assert (forall i :: 0 <= i < |order| ==> '\n' !in order[i]) ==> ReadNotesFile(content) == order by {
      if forall i :: 0 <= i < |order| ==> '\n' !in order[i] {
        WriteThenRead(order);
      }
    }
    NotesSet(content, order)
  }
}
