/** Label handling in the command-line program: the pure part of `load_labels`
    (split the file's text into lines the way `std::getline` does, drop one
    trailing carriage return per line) and the label lookup with its
    `"class_<idx>"` fallback.
 */
module Labels {
  import opened Outcomes

  /** Position of the first '\n' in `s`, or `|s|` when there is none. */
  function NewlineIndex(s: string): (i: nat)
    ensures i <= |s|
    ensures i < |s| ==> s[i] == '\n'
    ensures forall j :: 0 <= j < i ==> s[j] != '\n'
  {
    if |s| == 0 || s[0] == '\n' then 0 else 1 + NewlineIndex(s[1..])
  }

  /** The lines successive `std::getline` calls read from `s`: text between
      newlines, in order, including empty lines, but no empty line after a final
      newline. */
  function GetLines(s: string): (lines: seq<string>)
    ensures forall i :: 0 <= i < |lines| ==> '\n' !in lines[i]
    decreases |s|
  {
    if |s| == 0 then []
    else
      var i := NewlineIndex(s);
      if i == |s| then [s]
      else [s[..i]] + GetLines(s[i + 1..])
  }

  /** Drop one trailing '\r' (or '\n') from a line. */
  function StripTerminator(line: string): string {
    if |line| > 0 && (line[|line| - 1] == '\r' || line[|line| - 1] == '\n')
    then line[..|line| - 1]
    else line
  }

  /** `load_labels`: `None` is a file that cannot be opened, which yields no labels. */
  function LoadLabels(file: Option<string>): (labels: seq<string>)
    ensures file.None? ==> labels == []
    ensures file.Some? ==> |labels| == |GetLines(file.value)|
    ensures forall i :: file.Some? && 0 <= i < |labels| ==>
      labels[i] == StripTerminator(GetLines(file.value)[i])
  {
    match file
    case None => []
    case Some(text) =>
      var lines := GetLines(text);
      seq(|lines|, i requires 0 <= i < |lines| => StripTerminator(lines[i]))
  }

  /** Text of a label file: each line followed by `terminator`. */
  function Unlines(lines: seq<string>, terminator: string): string {
    if |lines| == 0 then "" else lines[0] + terminator + Unlines(lines[1..], terminator)
  }

  predicate NoNewline(lines: seq<string>) {
    forall i :: 0 <= i < |lines| ==> '\n' !in lines[i]
  }

  lemma {:induction false} GetLinesUnlines(lines: seq<string>, terminator: string)
    requires NoNewline(lines)
    requires |terminator| > 0 && terminator[|terminator| - 1] == '\n'
    requires '\n' !in terminator[..|terminator| - 1]
    ensures GetLines(Unlines(lines, terminator))
         == seq(|lines|, i requires 0 <= i < |lines| => lines[i] + terminator[..|terminator| - 1])
  {
    if |lines| > 0 {
      var body := terminator[..|terminator| - 1];
      var rest := Unlines(lines[1..], terminator);
      var text := Unlines(lines, terminator);
      assert text == (lines[0] + body) + "\n" + rest by {
        assert terminator == body + "\n";
      }
      assert '\n' !in lines[0] + body;
      var i := NewlineIndex(text);
      assert text[|lines[0] + body|] == '\n';
      assert i == |lines[0] + body|;
      assert text[..i] == lines[0] + body;
      assert text[i + 1..] == rest;
      GetLinesUnlines(lines[1..], terminator);
    }
  }

  /** Lines terminated by "\n" are read back exactly, in order, empty lines
      included, provided none ends in '\r'. */
  lemma LoadLabelsUnixRoundTrip(lines: seq<string>)
    requires NoNewline(lines)
    requires forall i :: 0 <= i < |lines| ==> |lines[i]| == 0 || lines[i][|lines[i]| - 1] != '\r'
    ensures LoadLabels(Some(Unlines(lines, "\n"))) == lines
  {
    GetLinesUnlines(lines, "\n");
    assert "\n"[..0] == "";
    var got := LoadLabels(Some(Unlines(lines, "\n")));
    forall i | 0 <= i < |lines|
      ensures got[i] == lines[i]
    {
      assert lines[i] + "" == lines[i];
    }
  }

  /** Lines terminated by "\r\n" are read back exactly: exactly one '\r' is
      stripped from each. */
  lemma LoadLabelsDosRoundTrip(lines: seq<string>)
    requires NoNewline(lines)
    ensures LoadLabels(Some(Unlines(lines, "\r\n"))) == lines
  {
    GetLinesUnlines(lines, "\r\n");
    assert "\r\n"[..1] == "\r";
    var got := LoadLabels(Some(Unlines(lines, "\r\n")));
    forall i | 0 <= i < |lines|
      ensures got[i] == lines[i]
    {
      assert (lines[i] + "\r")[..|lines[i]|] == lines[i];
    }
  }

  /** Text that is empty or ends in a newline, as a file written line by line is. */
  predicate EndsInNewline(s: string) {
    |s| == 0 || s[|s| - 1] == '\n'
  }

  /** `getline` on text with a newline at `i`: the line before it, then the
      lines of the text after it. */
  lemma GetLinesStep(s: string, i: nat)
    requires i == NewlineIndex(s) && i < |s|
    ensures GetLines(s) == [s[..i]] + GetLines(s[i + 1..])
  {
  }

  /** Text without a newline is one last, unterminated line. */
  lemma LastLine(s: string)
    requires |s| > 0 && NewlineIndex(s) == |s|
    ensures !EndsInNewline(s) && Unlines(GetLines(s), "\n") == s + "\n"
  {
    var lines := GetLines(s);
    assert lines == [s];
    assert lines[1..] == [];
  }

  lemma UnlinesCons(head: string, tail: seq<string>)
    ensures Unlines([head] + tail, "\n") == head + "\n" + Unlines(tail, "\n")
  {
    assert ([head] + tail)[1..] == tail;
  }

  lemma SplitAt(s: string, i: nat)
    requires i < |s| && s[i] == '\n'
    ensures s == s[..i] + "\n" + s[i + 1..]
  {
  }

  /** Putting a line and its newline back in front of the rejoined rest. */
  lemma RejoinLine(head: string, rest: string, u: string)
    requires EndsInNewline(rest) ==> u == rest
    requires !EndsInNewline(rest) ==> u == rest + "\n"
    ensures EndsInNewline(head + "\n" + rest) ==> head + "\n" + u == head + "\n" + rest
    ensures !EndsInNewline(head + "\n" + rest) ==> head + "\n" + u == head + "\n" + rest + "\n"
  {
    var s := head + "\n" + rest;
    if |rest| > 0 {
      assert s[|s| - 1] == rest[|rest| - 1];
    }
  }

  /** Joining the lines `getline` reads with "\n" gives the text back, with one
      newline added when its last line had none: the split loses, reorders and
      invents nothing. */
  lemma {:induction false} GetLinesRoundTrip(s: string)
    ensures EndsInNewline(s) ==> Unlines(GetLines(s), "\n") == s
    ensures !EndsInNewline(s) ==> Unlines(GetLines(s), "\n") == s + "\n"
    decreases |s|
  {
    if |s| > 0 {
      var i := NewlineIndex(s);
      if i == |s| {
        LastLine(s);
      } else {
        var head, rest := s[..i], s[i + 1..];
        GetLinesRoundTrip(rest);
        GetLinesStep(s, i);
        UnlinesCons(head, GetLines(rest));
        SplitAt(s, i);
        RejoinLine(head, rest, Unlines(GetLines(rest), "\n"));
      }
    }
  }

  /** A file holding "cat\ndog\n" gives the labels "cat" and "dog". */
  lemma LoadLabelsExample()
    ensures LoadLabels(Some("cat\ndog\n")) == ["cat", "dog"]
  {
    assert Unlines(["cat", "dog"], "\n") == "cat\ndog\n";
    LoadLabelsUnixRoundTrip(["cat", "dog"]);
  }

  /** A last line without a newline is still read. */
  lemma LoadLabelsUnterminatedExample()
    ensures LoadLabels(Some("cat\ndog")) == ["cat", "dog"]
  {
    assert NewlineIndex("dog") == 3;
    assert NewlineIndex("cat\ndog") == 3;
    GetLinesStep("cat\ndog", 3);
    assert "cat\ndog"[..3] == "cat" && "cat\ndog"[4..] == "dog";
  }

  function DigitChar(d: nat): char
    requires d < 10
  {
    ('0' as int + d) as char
  }

  function DigitValue(ch: char): int {
    ch as int - '0' as int
  }

  /** Decimal digits of `n`, most significant first, no leading zero. */
  function NatDigits(n: nat): (s: string)
    ensures |s| > 0
    ensures forall i :: 0 <= i < |s| ==> '0' <= s[i] <= '9'
    ensures |s| > 1 ==> s[0] != '0'
  {
    if n < 10 then [DigitChar(n)] else NatDigits(n / 10) + [DigitChar(n % 10)]
  }

  /** `std::to_string` of an int: a '-' before the digits of a negative value. */
  function DecimalString(i: int): (s: string)
    ensures |s| > 0
  {
    if i < 0 then "-" + NatDigits(-i) else NatDigits(i)
  }

  /** Reads a string of decimal digits back into a number. */
  function ParseDigits(s: string): int {
    if |s| == 0 then 0 else 10 * ParseDigits(s[..|s| - 1]) + DigitValue(s[|s| - 1])
  }

  function ParseDecimal(s: string): int {
    if |s| > 0 && s[0] == '-' then -ParseDigits(s[1..]) else ParseDigits(s)
  }

  lemma {:induction false} NatDigitsRoundTrip(n: nat)
    ensures ParseDigits(NatDigits(n)) == n
  {
    var s := NatDigits(n);
    if n >= 10 {
      var prefix := NatDigits(n / 10);
      NatDigitsRoundTrip(n / 10);
      assert s[..|s| - 1] == prefix;
    }
  }

  /** The decimal rendering of an index determines the index. */
  lemma {:induction false} DecimalRoundTrip(i: int)
    ensures ParseDecimal(DecimalString(i)) == i
  {
    var magnitude: nat := if i < 0 then -i else i;
    var digits := NatDigits(magnitude);
    NatDigitsRoundTrip(magnitude);
    if i < 0 {
      var s := "-" + digits;
      assert DecimalString(i) == s;
      assert s[1..] == digits;
    } else {
      assert DecimalString(i) == digits;
      assert '0' <= digits[0] <= '9';
    }
  }

  const FallbackPrefix := "class_"

  /** The label shown for class `idx`: `labels[idx]` when the list is non-empty
      and `idx` is in range, otherwise `"class_" + to_string(idx)`, whose digits
      read back as `idx`, so distinct out-of-range indices get distinct labels. */
  function LabelFor(labels: seq<string>, idx: int): (name: string)
    ensures 0 <= idx < |labels| ==> name == labels[idx]
    ensures !(0 <= idx < |labels|) ==>
      && name == FallbackPrefix + DecimalString(idx)
      && name[..|FallbackPrefix|] == FallbackPrefix
      && ParseDecimal(name[|FallbackPrefix|..]) == idx
  {
    DecimalRoundTrip(idx);
    if |labels| > 0 && 0 <= idx < |labels| then labels[idx]
    else
      var name := FallbackPrefix + DecimalString(idx);
      assert name[|FallbackPrefix|..] == DecimalString(idx);
      name
  }

  /** Labels for the predicted indices, in order (the `/predict` handler): the
      loaded label for an index in range, and otherwise a `"class_"` label that
      names the index, so two out-of-range predictions with different indices
      never share a label. */
  function TopLabels(labels: seq<string>, indices: seq<int>): (names: seq<string>)
    ensures |names| == |indices|
    ensures forall i :: 0 <= i < |indices| && 0 <= indices[i] < |labels| ==>
      names[i] == labels[indices[i]]
    ensures forall i :: 0 <= i < |indices| && !(0 <= indices[i] < |labels|) ==>
      && names[i] == FallbackPrefix + DecimalString(indices[i])
      && ParseDecimal(names[i][|FallbackPrefix|..]) == indices[i]
    ensures forall i, j ::
      (&& 0 <= i < |indices| && 0 <= j < |indices|
       && !(0 <= indices[i] < |labels|) && !(0 <= indices[j] < |labels|)
       && indices[i] != indices[j])
      ==> names[i] != names[j]
  {
    seq(|indices|, i requires 0 <= i < |indices| => LabelFor(labels, indices[i]))
  }
}
