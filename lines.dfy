/**
 * The file text as a sequence of lines: splitting on every newline, as
 * the editor does when it loads a file, and joining back.
 */
module Lines {

  /** The number of occurrences of `c` in `s`. */
  function Count(s: string, c: char): nat
  {
    if s == [] then 0 else (if s[0] == c then 1 else 0) + Count(s[1..], c)
  }

  /** No line holds a line terminator. */
  predicate NoNewlines(lines: seq<string>)
  {
    forall i :: 0 <= i < |lines| ==> '\n' !in lines[i]
  }

  /**
   * Splits on every '\n'. Like the source's `str::split`, an empty text
   * yields one empty line and a trailing newline yields a final empty line.
   */
  function Split(text: string): (lines: seq<string>)
    ensures |lines| == Count(text, '\n') + 1
    ensures NoNewlines(lines)
  {
    if text == [] then [""]
    else
      var rest := Split(text[1..]);
      if text[0] == '\n' then [""] + rest
      else [[text[0]] + rest[0]] + rest[1..]
  }

  /** The lines separated by '\n'. */
  function Join(lines: seq<string>): string
  {
    if lines == [] then ""
    else if |lines| == 1 then lines[0]
    else lines[0] + "\n" + Join(lines[1..])
  }

  /** Splitting loses nothing: joining the lines gives back the text. */
  lemma {:induction false} JoinSplit(text: string)
    ensures Join(Split(text)) == text
  {
    if text != [] {
      var rest := Split(text[1..]);
      JoinSplit(text[1..]);
      if text[0] == '\n' {
        assert Split(text) == [""] + rest;
        assert Join(Split(text)) == "" + "\n" + Join(rest);
      } else {
        assert Split(text) == [[text[0]] + rest[0]] + rest[1..];
        if |rest| == 1 {
          assert Join(Split(text)) == [text[0]] + rest[0];
        } else {
          assert Join(rest) == rest[0] + "\n" + Join(rest[1..]);
          assert Join(Split(text)) == [text[0]] + rest[0] + "\n" + Join(rest[1..]);
        }
        assert text == [text[0]] + text[1..];
      }
    }
  }

  /** A text without newlines extends the first line of whatever follows it. */
  lemma {:induction false} SplitPrefix(a: string, t: string)
    requires '\n' !in a
    ensures Split(a + t) == [a + Split(t)[0]] + Split(t)[1..]
  {
    if a != [] {
      assert (a + t)[1..] == a[1..] + t;
      assert (a + t)[0] == a[0];
      assert a[0] != '\n' && a + t != [];
      SplitPrefix(a[1..], t);
      var r := Split(a[1..] + t);
      assert Split(a + t) == [[a[0]] + r[0]] + r[1..];
      assert r[0] == a[1..] + Split(t)[0] && r[1..] == Split(t)[1..];
      assert a == [a[0]] + a[1..];
      assert [a[0]] + r[0] == a + Split(t)[0];
    } else {
      assert a + t == t && a + Split(t)[0] == Split(t)[0];
      assert Split(t) == [Split(t)[0]] + Split(t)[1..];
    }
  }

  /** Lines without terminators survive joining and splitting. */
  lemma {:induction false} SplitJoin(lines: seq<string>)
    requires |lines| >= 1 && NoNewlines(lines)
    ensures Split(Join(lines)) == lines
  {
    assert '\n' !in lines[0];
    if |lines| == 1 {
      SplitPrefix(lines[0], "");
      assert lines[0] + "" == lines[0];
    } else {
      var j := Join(lines[1..]);
      assert NoNewlines(lines[1..]) by {
        forall i | 0 <= i < |lines[1..]| ensures '\n' !in lines[1..][i] {
          assert lines[1..][i] == lines[i + 1];
        }
      }
      SplitJoin(lines[1..]);
      assert Join(lines) == lines[0] + ("\n" + j);
      SplitPrefix(lines[0], "\n" + j);
      assert ("\n" + j)[1..] == j;
      assert Split("\n" + j) == [""] + lines[1..];
      assert lines[0] + "" == lines[0];
      assert lines == [lines[0]] + lines[1..];
    }
  }
}
