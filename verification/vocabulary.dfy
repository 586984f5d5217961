/** The vocabulary of `prepare_sequences` and `generate_encoded_notes`:
    `pitch_names = sorted(set(notes))`, `note_to_int` from each name to its
    position, and the reverse `int_to_note`. */
module Vocabulary {
  import opened LexOrder

  predicate StrictlySorted(s: seq<string>)
  {
    forall i, j :: 0 <= i < j < |s| ==> Less(s[i], s[j])
  }

  predicate Distinct<T(==)>(s: seq<T>)
  {
    forall i, j :: 0 <= i < j < |s| ==> s[i] != s[j]
  }

  lemma SortedIsDistinct(s: seq<string>)
    requires StrictlySorted(s)
    ensures Distinct(s)
  {
    forall i, j | 0 <= i < j < |s|
      ensures s[i] != s[j]
    {
      LessIrreflexive(s[i]);
    }
  }

  /** Adds `x` to a strictly sorted list at its place, unless it is already there. */
  function Insert(x: string, s: seq<string>): (r: seq<string>)
    requires StrictlySorted(s)
    ensures StrictlySorted(r)
    ensures forall t :: t in r <==> t == x || t in s
    ensures x in s ==> |r| == |s|
    ensures x !in s ==> |r| == |s| + 1
  {
    if |s| == 0 then [x]
    else if x == s[0] then s
    else if Less(x, s[0]) then
      assert forall j :: 0 < j < |s| ==> Less(x, s[j]) by {
        forall j | 0 < j < |s| ensures Less(x, s[j]) {
          LessTransitive(x, s[0], s[j]);
        }
      }
      SortedIsDistinct(s);
      assert x !in s by {
        forall j | 0 <= j < |s| ensures s[j] != x {
          if j > 0 { LessAsymmetric(x, s[j]); LessIrreflexive(x); }
        }
      }
      [x] + s
    else
      LessTotal(x, s[0]);
      var rest := Insert(x, s[1..]);
      assert forall t :: t in s <==> t == s[0] || t in s[1..] by {
        assert s == [s[0]] + s[1..];
      }
      assert forall j :: 0 <= j < |rest| ==> Less(s[0], rest[j]) by {
        forall j | 0 <= j < |rest| ensures Less(s[0], rest[j]) {
          if rest[j] != x {
            assert rest[j] in s[1..];
            var i :| 0 <= i < |s[1..]| && s[1..][i] == rest[j];
            assert s[i + 1] == rest[j];
          }
        }
      }
      [s[0]] + rest
  }

  /** `sorted(set(notes))`. */
  function PitchNames(notes: seq<string>): (r: seq<string>)
    ensures StrictlySorted(r)
    ensures forall t :: t in r <==> t in notes
    ensures |r| <= |notes|
    ensures Distinct(notes) ==> |r| == |notes|
  {
    if |notes| == 0 then []
    else
      var init := notes[..|notes| - 1];
      var last := notes[|notes| - 1];
      assert notes == init + [last];
      Insert(last, PitchNames(init))
  }

  lemma SameElementsSameEmptiness(a: seq<string>, b: seq<string>)
    requires forall t :: t in a <==> t in b
    ensures |a| > 0 ==> |b| > 0
  {
    if |a| > 0 {
      assert a[0] in b;
    }
  }

  /** A strictly sorted list is fixed by its elements. */
  lemma {:induction false} SortedUnique(a: seq<string>, b: seq<string>)
    requires StrictlySorted(a) && StrictlySorted(b)
    requires forall t :: t in a <==> t in b
    ensures a == b
  {
    SameElementsSameEmptiness(a, b);
    SameElementsSameEmptiness(b, a);
    if |a| > 0 {
      assert a[0] in b && b[0] in a;
      if a[0] != b[0] {
        var i :| 0 < i < |a| && a[i] == b[0];
        var j :| 0 < j < |b| && b[j] == a[0];
        LessTransitive(a[0], a[i], a[0]);
        LessIrreflexive(a[0]);
      }
      SortedIsDistinct(a);
      SortedIsDistinct(b);
      forall t
        ensures t in a[1..] <==> t in b[1..]
      {
        if t in a[1..] {
          var i :| 0 <= i < |a[1..]| && a[1..][i] == t;
          assert t in a && t in b;
          var j :| 0 <= j < |b| && b[j] == t;
          assert a[i + 1] == t;
          assert j != 0 by { assert a[0] == b[0]; }
          assert t == b[1..][j - 1];
        }
        if t in b[1..] {
          var j :| 0 <= j < |b[1..]| && b[1..][j] == t;
          assert t in a && t in b;
          var i :| 0 <= i < |a| && a[i] == t;
          assert b[j + 1] == t;
          assert i != 0 by { assert a[0] == b[0]; }
          assert t == a[1..][i - 1];
        }
      }
      SortedUnique(a[1..], b[1..]);
      assert a == [a[0]] + a[1..] && b == [b[0]] + b[1..];
    }
  }

  /** The names depend only on which tokens occur: reordering or repeating
      entries of `notes` changes nothing. */
  lemma PitchNamesDependOnlyOnTokens(a: seq<string>, b: seq<string>)
    requires forall t :: t in a <==> t in b
    ensures PitchNames(a) == PitchNames(b)
    ensures NoteToInt(a) == NoteToInt(b)
  {
    SortedUnique(PitchNames(a), PitchNames(b));
  }

  /** `note_to_int`: every token of `notes` to its position in `pitch_names`. */
  function NoteToInt(notes: seq<string>): (m: map<string, nat>)
    ensures forall t :: t in m <==> t in notes
  {
    var names := PitchNames(notes);
    map t | t in names :: Position(names, t)
  }

  /** Where `t` stands in `names`. */
  function Position(names: seq<string>, t: string): (k: nat)
    requires t in names
    ensures k < |names| && names[k] == t
  {
    if names[0] == t then 0 else 1 + Position(names[1..], t)
  }

  /** Every id is a position of `pitch_names`, and the name there is the token. */
  lemma NoteToIntIsPosition(notes: seq<string>)
    ensures forall t :: t in notes ==>
      NoteToInt(notes)[t] < |PitchNames(notes)| && PitchNames(notes)[NoteToInt(notes)[t]] == t
  {
  }

  /** `int_to_note`: every position of `pitch_names` to the name there. */
  function IntToNote(pitchNames: seq<string>): (m: map<nat, string>)
    ensures forall k :: k in m <==> 0 <= k < |pitchNames|
    ensures forall k :: 0 <= k < |pitchNames| ==> m[k] == pitchNames[k]
    ensures forall t :: t in m.Values <==> t in pitchNames
  {
    var m := map k: nat | k < |pitchNames| :: pitchNames[k];
    assert forall t :: t in pitchNames ==> t in m.Values by {
      forall t | t in pitchNames ensures t in m.Values {
        var k :| 0 <= k < |pitchNames| && pitchNames[k] == t;
        assert m[k] == t;
      }
    }
    m
  }

  /** Ids are dense and distinct tokens get distinct ids. */
  lemma NoteToIntIsInjective(notes: seq<string>, t: string, u: string)
    requires t in notes && u in notes && t != u
    ensures NoteToInt(notes)[t] != NoteToInt(notes)[u]
  {
    NoteToIntIsPosition(notes);
  }

  /** Built from the same names, `int_to_note` and `note_to_int` undo each other. */
  lemma IntToNoteInvertsNoteToInt(notes: seq<string>)
    ensures forall t :: t in notes ==> IntToNote(PitchNames(notes))[NoteToInt(notes)[t]] == t
    ensures forall k :: 0 <= k < |PitchNames(notes)| ==>
      IntToNote(PitchNames(notes))[k] in NoteToInt(notes) && NoteToInt(notes)[IntToNote(PitchNames(notes))[k]] == k
  {
    var names := PitchNames(notes);
    var m := NoteToInt(notes);
    SortedIsDistinct(names);
    NoteToIntIsPosition(notes);
    forall k | 0 <= k < |names|
      ensures names[k] in m && m[names[k]] == k
    {
      assert names[k] in notes;
    }
  }

  /** The tokens of `notes` that sort strictly before `t`. */
  function TokensBefore(notes: seq<string>, t: string): set<string>
  {
    set u | u in notes && Less(u, t)
  }

  lemma {:induction false} DistinctCard(s: seq<string>)
    requires Distinct(s)
    ensures |set u | u in s| == |s|
  {
    if |s| > 0 {
      var init := s[..|s| - 1];
      DistinctCard(init);
      assert (set u | u in s) == (set u | u in init) + {s[|s| - 1]} by {
        assert s == init + [s[|s| - 1]];
      }
      assert s[|s| - 1] !in init;
    }
  }

  /** The id of a token is the number of distinct tokens that sort before it:
      a definition of `note_to_int` that does not mention the sorted list. */
  lemma NoteToIntIsRank(notes: seq<string>, t: string)
    requires t in notes
    ensures NoteToInt(notes)[t] == |TokensBefore(notes, t)|
  {
    var names := PitchNames(notes);
    NoteToIntIsPosition(notes);
    var k := NoteToInt(notes)[t];
    assert names[k] == t;
    SortedIsDistinct(names);
    assert TokensBefore(notes, t) == set u | u in names[..k] by {
      forall u | u in notes && Less(u, t)
        ensures u in names[..k]
      {
        var i :| 0 <= i < |names| && names[i] == u;
        if i >= k {
          if i > k { LessTransitive(t, u, t); }
          LessIrreflexive(t);
        }
      }
      forall u | u in names[..k]
        ensures u in notes && Less(u, t)
      {
        var i :| 0 <= i < k && names[..k][i] == u;
        assert names[i] == u;
      }
    }
    DistinctCard(names[..k]);
  }
}
