/** The tag list the note workflow builds from one line of input:
    `[tag.strip() for tag in line.split(',') if tag.strip()]`. */
module Tags {
  import opened Text
  import opened Seqs

  /** `s.split(sep)`: the pieces between occurrences of `sep`; there is
      always at least one, and `"".split(sep)` is `[""]`. */
  function Split(s: string, sep: char): (r: seq<string>)
    ensures |r| >= 1
    ensures forall i :: 0 <= i < |r| ==> sep !in r[i]
    decreases |s|
  {
    var k := IndexOf(s, sep);
    if k == |s| then [s] else [s[..k]] + Split(s[k + 1..], sep)
  }

  /** `sep.join(pieces)`. */
  function Join(pieces: seq<string>, sep: char): (r: string)
  {
    if |pieces| == 0 then ""
    else if |pieces| == 1 then pieces[0]
    else pieces[0] + [sep] + Join(pieces[1..], sep)
  }

  /** Splitting loses nothing: joining the pieces gives the input back. */
  lemma {:induction false} JoinSplit(s: string, sep: char)
    ensures Join(Split(s, sep), sep) == s
    decreases |s|
  {
    var k := IndexOf(s, sep);
    if k < |s| {
      var rest := Split(s[k + 1..], sep);
      JoinSplit(s[k + 1..], sep);
      assert Split(s, sep) == [s[..k]] + rest;
      assert (([s[..k]] + rest)[1..]) == rest;
      assert Join(Split(s, sep), sep) == s[..k] + [sep] + Join(rest, sep);
      assert s == s[..k] + [sep] + s[k + 1..];
    }
  }

  /** A first piece free of the separator is split off whole. */
  lemma SplitFirstPiece(a: string, sep: char, t: string)
    requires sep !in a
    ensures Split(a + [sep] + t, sep) == [a] + Split(t, sep)
  {
    var s := a + [sep] + t;
    assert s[|a|] == sep;
    assert forall j :: 0 <= j < |a| ==> s[j] == a[j];
    assert IndexOf(s, sep) == |a|;
    assert s[..|a|] == a;
    assert s[|a| + 1..] == t;
  }

  /** Pieces free of the separator are recovered from their join. */
  lemma {:induction false} SplitJoin(pieces: seq<string>, sep: char)
    requires |pieces| >= 1
    requires forall i :: 0 <= i < |pieces| ==> sep !in pieces[i]
    ensures Split(Join(pieces, sep), sep) == pieces
  {
    if |pieces| == 1 {
      assert IndexOf(pieces[0], sep) == |pieces[0]|;
    } else {
      SplitJoin(pieces[1..], sep);
      SplitFirstPiece(pieces[0], sep, Join(pieces[1..], sep));
      assert pieces == [pieces[0]] + pieces[1..];
    }
  }

  /** `s.lstrip()`. */
  function StripLeft(s: string): (r: string)
    ensures |r| <= |s| && r == s[|s| - |r|..]
    ensures r == [] || !IsSpace(r[0])
    ensures forall i :: 0 <= i < |s| - |r| ==> IsSpace(s[i])
  {
    if s != [] && IsSpace(s[0]) then StripLeft(s[1..]) else s
  }

  /** `s.rstrip()`. */
  function StripRight(s: string): (r: string)
    ensures |r| <= |s| && r == s[..|r|]
    ensures r == [] || !IsSpace(r[|r| - 1])
    ensures forall i :: |r| <= i < |s| ==> IsSpace(s[i])
  {
    if s != [] && IsSpace(s[|s| - 1]) then StripRight(s[..|s| - 1]) else s
  }

  /** A string with no whitespace at either end. */
  predicate Trimmed(s: string)
  {
    s == [] || (!IsSpace(s[0]) && !IsSpace(s[|s| - 1]))
  }

  /** `s.strip()`: the slice of `s` left after removing whitespace from both
      ends. */
  function Strip(s: string): (r: string)
    ensures Trimmed(r)
    ensures Trimmed(s) ==> r == s
    ensures forall c :: c in r ==> c in s
  {
    StripRight(StripLeft(s))
  }

  /** `r` is `s[i..j]`, and everything of `s` outside that slice is
      whitespace. */
  predicate IsOuterSpaceCut(s: string, r: string, i: int, j: int)
  {
    && 0 <= i <= j <= |s| && r == s[i..j]
    && (forall k :: 0 <= k < i ==> IsSpace(s[k]))
    && (forall k :: j <= k < |s| ==> IsSpace(s[k]))
  }

  /** `strip` removes whitespace at the two ends and nothing else. */
  lemma StripRemovesOnlyOuterSpace(s: string)
    ensures exists i, j :: IsOuterSpaceCut(s, Strip(s), i, j)
  {
    var left := StripLeft(s);
    var r := StripRight(left);
    var i := |s| - |left|;
    var j := i + |r|;
    assert left == s[i..];
    assert r == left[..|r|];
    assert r == s[i..j];
    forall k | j <= k < |s| ensures IsSpace(s[k]) {
      assert s[k] == left[k - i];
    }
    assert Strip(s) == r;
    assert IsOuterSpaceCut(s, r, i, j);
  }

  /** A well-formed tag: non-empty, trimmed, and free of the comma that
      separates tags. */
  predicate IsTag(t: string)
  {
    t != [] && Trimmed(t) && ',' !in t
  }

  function StripAll(pieces: seq<string>): (r: seq<string>)
    ensures |r| == |pieces|
    ensures forall i :: 0 <= i < |r| ==> r[i] == Strip(pieces[i])
  {
    seq(|pieces|, i requires 0 <= i < |pieces| => Strip(pieces[i]))
  }

  predicate NonEmpty(s: string) { s != [] }

  /** The non-empty pieces among trimmed, comma-free pieces are tags. */
  lemma NonEmptyPiecesAreTags(pieces: seq<string>)
    requires forall j :: 0 <= j < |pieces| ==> ',' !in pieces[j] && Trimmed(pieces[j])
    ensures forall i :: 0 <= i < |Filter(pieces, NonEmpty)| ==> IsTag(Filter(pieces, NonEmpty)[i])
  {
    var r := Filter(pieces, NonEmpty);
    FilterMembers(pieces, NonEmpty);
    forall i | 0 <= i < |r| ensures IsTag(r[i]) {
      assert r[i] in r;
      var j :| 0 <= j < |pieces| && pieces[j] == r[i];
    }
  }

  /** The tag list typed as one comma-separated line (Personal_Assistant.py,
      add_note_workflow). */
  function ParseTags(line: string): (r: seq<string>)
    ensures forall i :: 0 <= i < |r| ==> IsTag(r[i])
  {
    var stripped := StripAll(Split(line, ','));
    assert forall j :: 0 <= j < |stripped| ==> ',' !in stripped[j];
    NonEmptyPiecesAreTags(stripped);
    Filter(stripped, NonEmpty)
  }

  /** Stripping pieces that are already trimmed changes nothing. */
  lemma StripAllKeepsTrimmed(pieces: seq<string>)
    requires forall i :: 0 <= i < |pieces| ==> Trimmed(pieces[i])
    ensures StripAll(pieces) == pieces
  {
    var r := StripAll(pieces);
    forall i | 0 <= i < |pieces| ensures r[i] == pieces[i] {
      assert r[i] == Strip(pieces[i]);
    }
  }

  /** Writing well-formed tags as one comma-separated line and parsing the
      line gives the same tags back, in order. */
  lemma ParseJoinedTags(tags: seq<string>)
    requires forall i :: 0 <= i < |tags| ==> IsTag(tags[i])
    ensures ParseTags(Join(tags, ',')) == tags
  {
    if tags == [] {
      assert Split("", ',') == [""];
      StripAllKeepsTrimmed([""]);
      assert Filter([""], NonEmpty) == [];
    } else {
      var line := Join(tags, ',');
      SplitJoin(tags, ',');
      assert Split(line, ',') == tags;
      StripAllKeepsTrimmed(tags);
      FilterKeepsAll(tags, NonEmpty);
      assert ParseTags(line) == Filter(StripAll(Split(line, ',')), NonEmpty);
    }
  }
}
