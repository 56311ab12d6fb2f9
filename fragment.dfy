/**
 * Sending the challenge text in lines that fit the protocol: the `for(;;)`
 * loop of `m_challenge` that copies at most `w - 1` characters at a time
 * into a buffer of `w` bytes (`CHALLENGE_WIDTH`) and sends each copy.
 */
module Fragment {

  /**
   * `rb_strlcpy(dst, src, size)`: copies as much of `src` as fits in
   * `size` bytes with the terminating NUL, and returns the length of `src`.
   */
  function Strlcpy(src: string, size: nat): (r: (string, nat))
    requires size > 0
    ensures r.1 == |src|
    ensures |r.0| < size && r.0 <= src
    ensures |src| < size ==> r.0 == src
    ensures |src| >= size ==> r.0 == src[..size - 1]
  {
    if |src| < size then (src, |src|) else (src[..size - 1], |src|)
  }

  /** The lines joined back in order, as the receiving client does. */
  function Concat(lines: seq<string>): string
  {
    if lines == [] then [] else lines[0] + Concat(lines[1..])
  }

  /**
   * The lines the loop sends for `text`, as a reference definition: a line
   * of `w - 1` characters while at least `w` remain, then the rest.
   */
  function Chunks(text: string, w: nat): seq<string>
    requires w > 1
    decreases |text|
  {
    if |text| < w then [text] else [text[..w - 1]] + Chunks(text[w - 1..], w)
  }

  /**
   * There is always a line (an empty text gives one empty line), every
   * line fits the buffer, all but the last are full, and the last is empty
   * only when the text is.
   */
  lemma {:induction false} ChunksShape(text: string, w: nat)
    requires w > 1
    ensures var lines := Chunks(text, w);
            |lines| >= 1 &&
            (forall i :: 0 <= i < |lines| ==> |lines[i]| <= w - 1) &&
            (forall i :: 0 <= i < |lines| - 1 ==> |lines[i]| == w - 1) &&
            (text != [] ==> lines[|lines| - 1] != [])
    decreases |text|
  {
    if |text| >= w {
      var rest := Chunks(text[w - 1..], w);
      ChunksShape(text[w - 1..], w);
      var lines := Chunks(text, w);
      assert lines == [text[..w - 1]] + rest;
      forall i | 1 <= i < |lines|
        ensures lines[i] == rest[i - 1]
      {
      }
    }
  }

  /** The lines concatenated in order give back the challenge text. */
  lemma {:induction false} ChunksConcat(text: string, w: nat)
    requires w > 1
    ensures Concat(Chunks(text, w)) == text
    decreases |text|
  {
    if |text| >= w {
      var lines := Chunks(text, w);
      ChunksConcat(text[w - 1..], w);
      assert lines[1..] == Chunks(text[w - 1..], w);
      assert text == text[..w - 1] + text[w - 1..];
    }
  }

  /**
   * Chunks is the only way to cut `text` into lines in order such that
   * every line but the last holds exactly `w - 1` characters and the last
   * holds fewer than `w`, and is empty only for an empty text.
   */
  lemma {:induction false} ChunksUnique(text: string, w: nat, lines: seq<string>)
    requires w > 1
    requires |lines| >= 1 && Concat(lines) == text
    requires forall i :: 0 <= i < |lines| - 1 ==> |lines[i]| == w - 1
    requires |lines[|lines| - 1]| <= w - 1
    requires text != [] ==> lines[|lines| - 1] != []
    ensures lines == Chunks(text, w)
    decreases |lines|
  {
    if |lines| == 1 {
      assert Concat(lines[1..]) == [];
      assert text == lines[0];
    } else {
      var rest := Concat(lines[1..]);
      assert text == lines[0] + rest;
      assert lines[|lines| - 1] == lines[1..][|lines[1..]| - 1];
      ConcatLast(lines[1..]);
      assert |text| >= w;
      assert text[..w - 1] == lines[0];
      assert text[w - 1..] == rest;
      ChunksUnique(rest, w, lines[1..]);
    }
  }

  /** The last line is a suffix of the concatenation. */
  lemma {:induction false} ConcatLast(lines: seq<string>)
    requires |lines| >= 1
    ensures |Concat(lines)| >= |lines[|lines| - 1]|
    decreases |lines|
  {
    if |lines| > 1 {
      ConcatLast(lines[1..]);
      assert lines[1..][|lines[1..]| - 1] == lines[|lines| - 1];
    }
  }

  /** Unfolding Chunks once on a text of at least `w` characters. */
  lemma ChunksStep(text: string, w: nat)
    requires w > 1 && |text| >= w
    ensures Chunks(text, w) == [text[..w - 1]] + Chunks(text[w - 1..], w)
  {
  }

  /**
   * The loop itself. `pos` stands for the `chal` pointer, which starts at
   * the text and advances by `w - 1` while `rb_strlcpy` reports at least
   * `w` characters left; each copy is one line sent.
   */
  method SplitChallenge(text: string, w: nat) returns (lines: seq<string>)
    requires w > 1
    ensures lines == Chunks(text, w)
    ensures |lines| >= 1 && Concat(lines) == text
    ensures forall i :: 0 <= i < |lines| ==> |lines[i]| <= w - 1
  {
    lines := [];
    var pos := 0;
    while true
      invariant pos <= |text|
      invariant lines + Chunks(text[pos..], w) == Chunks(text, w)
      decreases |text| - pos
    {
      var rest := text[pos..];
      var copied := Strlcpy(rest, w);
      var chalLine, cnt := copied.0, copied.1;
      lines := lines + [chalLine];
      if cnt >= w {
        ChunksStep(rest, w);
        assert rest[w - 1..] == text[pos + w - 1..];
        pos := pos + w - 1;
      } else {
        break;
      }
    }
    ChunksConcat(text, w);
    ChunksShape(text, w);
  }
}
