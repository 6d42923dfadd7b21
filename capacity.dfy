/** The capacity report: `df --output=used,avail /`, a header line and
    one data row holding the used and available block counts. */
module Capacity {
  import opened Base
  import opened Text

  datatype Usage = Usage(used: int, avail: int)

  /** `get_df`: the first two words of the line after the header.
      No such line, or an empty one, is a value error; a line with
      fewer than two words an index error; a word that is not an
      integer a value error. `int` reads the first word before the
      second is looked up. */
  function GetDf(out: string): (r: Result<Usage>)
    ensures r.Err? ==> r.error == ValueError || r.error == IndexError
    ensures r.Ok? ==> |Split(out, '\n')| >= 2
    ensures r.Ok? ==>
              var line := Split(out, '\n')[1];
              && |Words(line)| >= 2
              && ParseInt(Words(line)[0]) == Some(r.value.used)
              && ParseInt(Words(line)[1]) == Some(r.value.avail)
    ensures r == Err(IndexError) ==> |Split(out, '\n')| >= 2 && |Words(Split(out, '\n')[1])| < 2
  {
    var lines := Split(out, '\n')[1..];
    if |lines| > 0 && lines[0] != "" then
      var w := Words(lines[0]);
      if |w| == 0 then Err(IndexError)
      else match ParseInt(w[0])
        case None => Err(ValueError)
        case Some(used) =>
          if |w| < 2 then Err(IndexError)
          else match ParseInt(w[1])
            case None => Err(ValueError)
            case Some(avail) => Ok(Usage(used, avail))
    else Err(ValueError)
  }

  /** A header followed by nothing, or by an empty line, is rejected. */
  lemma NoDataRow(header: string, rest: string)
    requires '\n' !in header
    requires rest == "" || rest == "\n" || (|rest| > 1 && rest[0] == '\n' && rest[1] == '\n')
    ensures GetDf(header + rest) == Err(ValueError)
  {
    if rest == "" {
      SplitAfterPiece(header, "", '\n');
      assert header + "" == header;
      assert Split("", '\n') == [""];
    } else {
      SplitAfterPiece(header, rest, '\n');
      var s := Split(rest[1..], '\n');
      assert Split(rest, '\n') == [""] + s;
      if rest == "\n" {
        assert rest[1..] == "";
        assert Split(rest[1..], '\n') == [""];
      } else {
        assert rest[1..][0] == '\n';
        assert s == [""] + Split(rest[2..], '\n') by {
          assert rest[1..][1..] == rest[2..];
        }
      }
    }
  }

  /** The line after a header is the second element of the split. */
  lemma SecondLine(header: string, row: string, rest: string)
    requires '\n' !in header && '\n' !in row
    requires rest == "" || rest[0] == '\n'
    ensures var lines := Split(header + ("\n" + (row + rest)), '\n')[1..];
            |lines| > 0 && lines[0] == row
  {
    SplitAfterPiece(header, "\n" + (row + rest), '\n');
    assert ("\n" + (row + rest))[1..] == row + rest;
    assert Split("\n" + (row + rest), '\n') == [""] + Split(row + rest, '\n');
    SplitAfterPiece(row, rest, '\n');
    if rest == "" {
      assert Split(rest, '\n') == [""];
    } else {
      assert Split(rest, '\n')[0] == "";
    }
  }

  /** A printed integer is one word on one line. */
  lemma Numeral(n: int)
    ensures var t := IntToString(n); t != [] && NoSpace(t) && '\n' !in t
  {
    var t := IntToString(n);
    forall c | c in t ensures !IsSpace(c) && c != '\n' {
      assert c == '-' || IsDigit(c);
    }
  }

  lemma RegroupRow(header: string, pad: string, u: string, gap: string, a: string, rest: string)
    ensures header + "\n" + pad + u + gap + a + rest == header + ("\n" + ((pad + u + gap + a) + rest))
  {
  }

  /** The row `df` prints, numbers padded with spaces, reads back as the
      two numbers. */
  lemma ReadBack(header: string, pad: string, used: int, gap: string, avail: int, rest: string)
    requires '\n' !in header
    requires AllSpace(pad) && '\n' !in pad
    requires gap != [] && AllSpace(gap) && '\n' !in gap
    requires rest == "" || rest[0] == '\n'
    ensures GetDf(header + "\n" + pad + IntToString(used) + gap + IntToString(avail) + rest)
            == Ok(Usage(used, avail))
  {
    var u, a := IntToString(used), IntToString(avail);
    var row := pad + u + gap + a;
    RegroupRow(header, pad, u, gap, a, rest);
    Numeral(used);
    Numeral(avail);
    assert '\n' !in row;
    SecondLine(header, row, rest);
    TwoWords(pad, u, gap, a);
    ParseShow(used);
    ParseShow(avail);
  }
}
