/** Go strings as byte strings: splitting, joining and literals. */
module Text {

  import opened Bytes

  /** The byte of '/', the Uri-Path separator. */
  const SLASH: Byte := 0x2F

  /** The byte of ' ', which the command line puts between payload words. */
  const SPACE: Byte := 0x20

  /** The bytes of an ASCII literal, as Go's `[]byte("...")` gives them. */
  function Ascii(s: string): (r: seq<Byte>)
    requires forall i :: 0 <= i < |s| ==> s[i] as int < 128
    ensures |r| == |s| && forall i :: 0 <= i < |s| ==> r[i] == s[i] as int
  {
    seq(|s|, i requires 0 <= i < |s| => s[i] as int)
  }

  /** `strings.Split(s, sep)` for a one-byte separator: the pieces between separators, in
      order, never fewer than one. */
  function Split(s: seq<Byte>, sep: Byte): (r: seq<seq<Byte>>)
    ensures |r| >= 1
  {
    if s == [] then [[]]
    else
      var rest := Split(s[1..], sep);
      if s[0] == sep then [[]] + rest
      else [[s[0]] + rest[0]] + rest[1..]
  }

  /** The pieces hold no separator, and there is more than one exactly when s holds one. */
  lemma {:induction false} SplitPieces(s: seq<Byte>, sep: Byte)
    ensures forall i :: 0 <= i < |Split(s, sep)| ==> sep !in Split(s, sep)[i]
    ensures |Split(s, sep)| == 1 <==> sep !in s
  {
    if s != [] {
      SplitPieces(s[1..], sep);
      assert s == [s[0]] + s[1..];
    }
  }

  /** A string holding the separator splits into at least two pieces. */
  lemma {:induction false} SplitCount(s: seq<Byte>, sep: Byte)
    requires sep in s
    ensures |Split(s, sep)| >= 2
  {
    SplitPieces(s, sep);
  }

  /** `strings.Join(ws, sep)` for a one-byte separator. */
  function Join(ws: seq<seq<Byte>>, sep: Byte): (r: seq<Byte>)
    ensures |ws| >= 1 ==> |ws[0]| <= |r| && r[..|ws[0]|] == ws[0]
    ensures |ws| >= 2 ==> |r| > |ws[0]| && r[|ws[0]|] == sep
  {
    if |ws| == 0 then []
    else if |ws| == 1 then ws[0]
    else ws[0] + [sep] + Join(ws[1..], sep)
  }

  /** Joining the pieces of a split gives the string back. */
  lemma {:induction false} JoinSplit(s: seq<Byte>, sep: Byte)
    ensures Join(Split(s, sep), sep) == s
  {
    if s != [] {
      var rest := Split(s[1..], sep);
      JoinSplit(s[1..], sep);
      if s[0] == sep {
        assert ([[]] + rest)[1..] == rest;
      } else {
        var r := [[s[0]] + rest[0]] + rest[1..];
        if |rest| == 1 {
          assert r == [[s[0]] + rest[0]];
        } else {
          assert r[1..] == rest[1..];
          assert Join(rest, sep) == rest[0] + [sep] + Join(rest[1..], sep);
        }
      }
    }
  }

  /** Splitting a join of separator-free words gives the words back. */
  lemma {:induction false} SplitJoin(ws: seq<seq<Byte>>, sep: Byte)
    requires |ws| >= 1
    requires forall i :: 0 <= i < |ws| ==> sep !in ws[i]
    ensures Split(Join(ws, sep), sep) == ws
  {
    if |ws| == 1 {
      SplitWord(ws[0], [], sep);
    } else {
      SplitJoin(ws[1..], sep);
      SplitWord(ws[0], Join(ws[1..], sep), sep);
      assert [ws[0]] + ws[1..] == ws;
    }
  }

  /** Splitting a separator-free word followed by `tail`: the word glued to the first piece of
      the tail, or, if the tail opens with the separator, the word as a piece of its own. */
  lemma {:induction false} SplitWord(w: seq<Byte>, tail: seq<Byte>, sep: Byte)
    requires sep !in w
    ensures tail == [] ==> Split(w, sep) == [w]
    ensures Split(w + [sep] + tail, sep) == [w] + Split(tail, sep)
  {
    if w == [] {
      assert w + [sep] + tail == [sep] + tail;
      assert ([sep] + tail)[1..] == tail;
    } else {
      SplitWord(w[1..], tail, sep);
      assert (w + [sep] + tail)[1..] == w[1..] + [sep] + tail;
      var rest := Split(w[1..] + [sep] + tail, sep);
      assert rest[0] == w[1..];
      assert [w[0]] + w[1..] == w;
      assert rest[1..] == Split(tail, sep);
      if tail == [] {
        assert Split(w[1..], sep) == [w[1..]];
      }
    }
  }

  /** The path a decoder rebuilds from Uri-Path segments: each segment after a separator. */
  function PrefixJoin(segs: seq<seq<Byte>>, sep: Byte): (r: seq<Byte>)
  {
    if segs == [] then []
    else PrefixJoin(segs[..|segs| - 1], sep) + [sep] + segs[|segs| - 1]
  }

  /** A rebuilt path is empty or starts with the separator. */
  lemma {:induction false} PrefixJoinHead(segs: seq<seq<Byte>>, sep: Byte)
    ensures PrefixJoin(segs, sep) == [] || PrefixJoin(segs, sep)[0] == sep
  {
    if segs != [] {
      PrefixJoinHead(segs[..|segs| - 1], sep);
    }
  }

  /** Joining with one more word at the end. */
  lemma {:induction false} JoinSnoc(ws: seq<seq<Byte>>, w: seq<Byte>, sep: Byte)
    requires |ws| >= 1
    ensures Join(ws + [w], sep) == Join(ws, sep) + [sep] + w
  {
    if |ws| > 1 {
      assert (ws + [w])[1..] == ws[1..] + [w];
      JoinSnoc(ws[1..], w, sep);
    }
  }

  /** Prefix-joining the segments is joining them after an empty first piece. */
  lemma {:induction false} PrefixJoinIsJoin(segs: seq<seq<Byte>>, sep: Byte)
    ensures PrefixJoin(segs, sep) == Join([[]] + segs, sep)
  {
    if segs != [] {
      var init := segs[..|segs| - 1];
      PrefixJoinIsJoin(init, sep);
      assert [[]] + segs == ([[]] + init) + [segs[|segs| - 1]];
      JoinSnoc([[]] + init, segs[|segs| - 1], sep);
    }
  }

  /** A path that starts with the separator is rebuilt exactly from the segments after the
      first (empty) piece of its split. */
  lemma {:induction false} PathRebuilt(s: seq<Byte>, sep: Byte)
    requires s != [] && s[0] == sep
    ensures PrefixJoin(Split(s, sep)[1..], sep) == s
  {
    var parts := Split(s, sep);
    assert parts == [[]] + Split(s[1..], sep);
    PrefixJoinIsJoin(parts[1..], sep);
    assert [[]] + parts[1..] == parts;
    JoinSplit(s, sep);
  }
}
