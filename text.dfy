/**
 * The two pieces of Rust's string API that the script loader relies on:
 * `str::split` with a one-character pattern and `str::split_terminator`.
 */
module Text {

  /** `s.split(sep)`: the pieces between separators; never empty. */
  function Split(s: string, sep: char): (pieces: seq<string>)
    ensures |pieces| >= 1
    ensures forall k :: 0 <= k < |pieces| ==> sep !in pieces[k]
    decreases |s|
  {
    if |s| == 0 then [""]
    else
      var rest := Split(s[1..], sep);
      if s[0] == sep then [""] + rest
      else [[s[0]] + rest[0]] + rest[1..]
  }

  /** Glues pieces back together with `sep` between neighbours. */
  function Join(pieces: seq<string>, sep: char): (s: string)
    requires |pieces| >= 1
  {
    if |pieces| == 1 then pieces[0]
    else pieces[0] + [sep] + Join(pieces[1..], sep)
  }

  /** `s.split_terminator(sep)`: like `split`, but an empty last piece is dropped. */
  function SplitTerminator(s: string, sep: char): (lines: seq<string>)
    ensures |lines| <= |Split(s, sep)|
    ensures var pieces := Split(s, sep);
            (pieces[|pieces| - 1] == "" ==> lines + [""] == pieces) &&
            (pieces[|pieces| - 1] != "" ==> lines == pieces)
  {
    var pieces := Split(s, sep);
    if pieces[|pieces| - 1] == "" then pieces[..|pieces| - 1] else pieces
  }

  /** Splitting and joining are inverse: no character of `s` is lost or added. */
  lemma {:induction false} JoinSplit(s: string, sep: char)
    ensures Join(Split(s, sep), sep) == s
    decreases |s|
  {
    if |s| > 0 {
      JoinSplit(s[1..], sep);
      var rest := Split(s[1..], sep);
      if s[0] == sep {
        assert Split(s, sep)[1..] == rest;
      } else {
        var head := [s[0]] + rest[0];
        if |rest| == 1 {
          assert Join(Split(s, sep), sep) == head == [s[0]] + s[1..];
        } else {
          assert Split(s, sep)[1..] == rest[1..];
          assert Join(rest, sep) == rest[0] + [sep] + Join(rest[1..], sep);
          assert Join(Split(s, sep), sep) == head + [sep] + Join(rest[1..], sep);
        }
      }
      assert s == [s[0]] + s[1..];
    }
  }

  /** Splitting a joined list gives it back, provided no piece holds the separator. */
  lemma {:induction false} SplitJoin(pieces: seq<string>, sep: char)
    requires |pieces| >= 1
    requires forall k :: 0 <= k < |pieces| ==> sep !in pieces[k]
    ensures Split(Join(pieces, sep), sep) == pieces
    decreases |Join(pieces, sep)|, |pieces|
  {
    var s := Join(pieces, sep);
    if |pieces| == 1 {
      SplitNoSep(pieces[0], sep);
    } else {
      var tail := Join(pieces[1..], sep);
      if pieces[0] == "" {
        assert s == [sep] + tail;
        assert s[1..] == tail;
        SplitJoin(pieces[1..], sep);
        assert Split(s, sep) == [""] + pieces[1..];
      } else {
        var p := pieces[0];
        var shorter := [p[1..]] + pieces[1..];
        assert Join(shorter, sep) == p[1..] + [sep] + tail;
        assert s == [p[0]] + (p[1..] + [sep] + tail);
        assert s[1..] == Join(shorter, sep);
        assert p[0] != sep by { assert p[0] in p; }
        forall k | 0 <= k < |shorter| ensures sep !in shorter[k] {
          if k == 0 {
            assert forall c :: c in p[1..] ==> c in p;
          } else {
            assert shorter[k] == pieces[k];
          }
        }
        SplitJoin(shorter, sep);
        assert [p[0]] + p[1..] == p;
      }
    }
  }

  /** A string without the separator splits into itself alone. */
  lemma {:induction false} SplitNoSep(s: string, sep: char)
    requires sep !in s
    ensures Split(s, sep) == [s]
    decreases |s|
  {
    if |s| > 0 {
      assert s[0] in s;
      assert forall c :: c in s[1..] ==> c in s;
      SplitNoSep(s[1..], sep);
      assert [s[0]] + s[1..] == s;
    }
  }

  /**
   * A single trailing terminator adds no line: `split_terminator` of `s + "\n"` is
   * `split` of `s`, and for a non-empty `s` not already ending in the terminator
   * that is also `split_terminator` of `s` itself.
   */
  lemma {:induction false} TrailingTerminator(s: string, sep: char)
    requires |s| == 0 || s[|s| - 1] != sep
    ensures SplitTerminator(s + [sep], sep) == Split(s, sep)
    ensures |s| > 0 ==> SplitTerminator(s, sep) == Split(s, sep)
    decreases |s|
  {
    SplitAppendSep(s, sep);
    if |s| > 0 {
      LastPieceEndsString(s, sep);
    }
  }

  /** Appending the separator closes the last piece and opens an empty one. */
  lemma {:induction false} SplitAppendSep(s: string, sep: char)
    ensures Split(s + [sep], sep) == Split(s, sep) + [""]
    decreases |s|
  {
    if |s| == 0 {
      assert [sep][1..] == [];
    } else {
      assert (s + [sep])[1..] == s[1..] + [sep];
      SplitAppendSep(s[1..], sep);
      var rest := Split(s[1..], sep);
      if s[0] != sep {
        assert (rest + [""])[0] == rest[0];
        assert (rest + [""])[1..] == rest[1..] + [""];
      }
    }
  }

  /** The last piece of a non-empty split is the tail after the last separator, so it is non-empty when `s` does not end with the separator. */
  lemma {:induction false} LastPieceEndsString(s: string, sep: char)
    requires |s| > 0 && s[|s| - 1] != sep
    ensures Split(s, sep)[|Split(s, sep)| - 1] != ""
    decreases |s|
  {
    var rest := Split(s[1..], sep);
    if |s| > 1 {
      assert s[1..][|s[1..]| - 1] == s[|s| - 1];
      LastPieceEndsString(s[1..], sep);
      if s[0] != sep && |rest| == 1 {
        assert Split(s, sep) == [[s[0]] + rest[0]];
      }
    }
  }
}
