/** app.py, `create_pdf`: how the markdown report becomes PDF paragraphs.
    Each line is stripped; a line starting with `#` becomes a bold heading
    without its leading `#` run (printed even when nothing is left); any
    other line loses its `**` and `__` markers and is printed only when
    something is left. The PDF drawing calls are left out: a paragraph is a
    `Cell`. */
module PdfReport {
  import opened PyValues
  import opened PyText

  /** One `multi_cell` call: a heading (bold, 12pt) or body text (11pt). */
  datatype Cell = Cell(isHeader: bool, text: string)

  /** What one line of the report becomes, if anything. */
  function CleanLine(line: string): Option<Cell>
  {
    var clean := Strip(line);
    if "#" <= clean then Some(Cell(true, HeadingText(clean))) else BodyCell(clean)
  }

  /** A heading's text: the stripped line without its leading `#` run, stripped. */
  function HeadingText(clean: string): string
  {
    Strip(LStripChar(clean, '#'))
  }

  /** Body text once `**` and then `__` are removed, if anything is left. */
  function BodyCell(clean: string): Option<Cell>
  {
    var plain := RemoveAll(RemoveAll(clean, "**"), "__");
    if plain == [] then None else Some(Cell(false, plain))
  }

  /** The paragraphs of the report, from its lines split at `\n`. */
  method ReportCells(report: string) returns (cells: seq<Cell>)
    ensures cells == FilterMap(SplitOn(report, '\n'), CleanLine)
  {
    cells := LinesToCells(SplitOn(report, '\n'));
  }

  /** The loop over the lines: each line's paragraph, if it has one, is
      appended in turn. */
  method LinesToCells(lines: seq<string>) returns (cells: seq<Cell>)
    ensures cells == FilterMap(lines, CleanLine)
  {
    cells := [];
    var i := 0;
    while i < |lines|
      invariant 0 <= i <= |lines|
      invariant cells == FilterMap(lines[..i], CleanLine)
    {
      assert lines[..i + 1][..i] == lines[..i];
      var c := CleanLine(lines[i]);
      if c.Some? {
        cells := cells + [c.value];
      }
      i := i + 1;
    }
    assert lines[..i] == lines;
  }

  /** A line becomes a heading exactly when, stripped, it starts with `#`;
      the heading is the stripped line without its leading `#` run, itself
      stripped, and may be empty. Any other line becomes a paragraph exactly
      when something is left once `**` and then `__` are removed; what is left
      is not empty and holds no `__`. */
  lemma CleanLineCases(line: string)
    ensures CleanLine(line).Some? && CleanLine(line).value.isHeader <==> "#" <= Strip(line)
    ensures "#" <= Strip(line) ==> CleanLine(line).value.text == Strip(LStripChar(Strip(line), '#'))
    ensures !("#" <= Strip(line)) ==>
      (CleanLine(line).None? <==> RemoveAll(RemoveAll(Strip(line), "**"), "__") == [])
    ensures CleanLine(line).Some? && !CleanLine(line).value.isHeader ==>
      && CleanLine(line).value.text != []
      && !Contains(CleanLine(line).value.text, "__")
  {
    RemovePairLeavesNone(RemoveAll(Strip(line), "**"), '_');
    assert "__" == ['_', '_'];
  }

  /** A string with no whitespace at either end is left alone by `strip`. */
  lemma StripUnchanged(s: string)
    requires s != [] && !IsSpace(s[0]) && !IsSpace(s[|s| - 1])
    ensures Strip(s) == s
  {
    assert SkipSpaces(s, 0) == 0;
    assert TrimStart(s) == s;
  }

  /** `strip` drops one leading blank. */
  lemma StripOneLeadingBlank(s: string)
    requires |s| >= 2 && IsSpace(s[0]) && !IsSpace(s[1]) && !IsSpace(s[|s| - 1])
    ensures Strip(s) == s[1..]
  {
    assert SkipSpaces(s, 1) == 1;
    assert TrimStart(s) == s[1..];
    assert TrimEnd(s[1..]) == s[1..];
  }

  /** A `#` run goes only at the front: a later `#` stays. */
  lemma HeadingKeepsInnerHash()
    ensures CleanLine("# # x") == Some(Cell(true, "# x"))
  {
    InnerHashLine();
    InnerHashText();
  }

  /** `"# # x"` has nothing to strip. */
  lemma InnerHashLine()
    ensures Strip("# # x") == "# # x"
  {
    StripUnchanged("# # x");
  }

  /** The heading text of `"# # x"`. */
  lemma InnerHashText()
    ensures HeadingText("# # x") == "# x"
  {
    assert LStripChar("# # x", '#') == " # x" by {
      assert "# # x"[1..] == " # x";
    }
    StripOneLeadingBlank(" # x");
    assert " # x"[1..] == "# x";
  }

  /** A bare `#` gives an empty heading. */
  lemma BareHashEmptyHeading()
    ensures CleanLine("#") == Some(Cell(true, ""))
  {
    StripUnchanged("#");
    assert LStripChar("#", '#') == "";
  }

  /** Removing `__` after `**` can leave a `**` behind. */
  lemma MarkerRemovalLeavesMarker()
    ensures CleanLine("*__*") == Some(Cell(false, "**"))
  {
    StripUnchanged("*__*");
    NoDoubleStar();
    UnderscoresRemoved();
  }

  /** `"*__*"` holds no `**`. */
  lemma NoDoubleStar()
    ensures RemoveAll("*__*", "**") == "*__*"
  {
    assert RemoveAll("*", "**") == "*" by {
      assert "*"[1..] == [];
    }
    assert RemoveAll("_*", "**") == "_*" by {
      assert "_*"[1..] == "*";
    }
    assert RemoveAll("__*", "**") == "__*" by {
      assert "__*"[1..] == "_*";
    }
    assert "*__*"[1..] == "__*";
  }

  /** Taking `__` out of `"*__*"` joins its two stars. */
  lemma UnderscoresRemoved()
    ensures RemoveAll("*__*", "__") == "**"
  {
    assert RemoveAll("*", "__") == "*" by {
      assert "*"[1..] == [];
    }
    assert RemoveAll("__*", "__") == "*" by {
      assert "__*"[2..] == "*";
    }
    assert "*__*"[1..] == "__*";
  }

  /** A line of markers only, or of blanks only, gives nothing. */
  lemma NothingLeft()
    ensures CleanLine("**__**") == None
    ensures CleanLine("  ") == None
  {
    var line := "**__**";
    StripUnchanged(line);
    assert RemoveAll(line, "**") == "__" by {
      assert line[2..] == "__**";
      assert "__**"[1..] == "_**";
      assert "_**"[1..] == "**";
      assert "**"[2..] == [];
    }
    assert RemoveAll("__", "__") == [] by {
      assert "__"[2..] == [];
    }
    assert Strip("  ") == [];
  }

  /** Removing a pattern never brings in a character. */
  lemma {:induction false} RemoveAllKeepsOut(s: string, pat: string, c: char)
    requires pat != [] && c !in s
    ensures c !in RemoveAll(s, pat)
    decreases |s|
  {
    if s != [] {
      if pat <= s {
        RemoveAllKeepsOut(s[|pat|..], pat, c);
      } else {
        RemoveAllKeepsOut(s[1..], pat, c);
      }
    }
  }

  /** Stripping never brings in a character. */
  lemma StripKeepsOut(s: string, c: char)
    requires c !in s
    ensures c !in Strip(s)
  {
    var r := Strip(s);
    var i :| TrimmedAt(r, s, i);
    assert forall k :: 0 <= k < |r| ==> r[k] == s[i + k];
  }

  /** A line's paragraph holds no character the line does not. */
  lemma CleanLineKeepsOut(line: string, c: char)
    requires c !in line && CleanLine(line).Some?
    ensures c !in CleanLine(line).value.text
  {
    var clean := Strip(line);
    StripKeepsOut(line, c);
    if "#" <= clean {
      StripKeepsOut(LStripChar(clean, '#'), c);
    } else {
      RemoveAllKeepsOut(clean, "**", c);
      RemoveAllKeepsOut(RemoveAll(clean, "**"), "__", c);
    }
  }

  /** The paragraphs of a report hold no line break: each sits on one line. */
  lemma ReportCellsOneLine(report: string)
    ensures forall k :: 0 <= k < |FilterMap(SplitOn(report, '\n'), CleanLine)| ==>
      '\n' !in FilterMap(SplitOn(report, '\n'), CleanLine)[k].text
  {
    var lines := SplitOn(report, '\n');
    forall i | 0 <= i < |lines| && CleanLine(lines[i]).Some?
      ensures '\n' !in CleanLine(lines[i]).value.text
    {
      CleanLineKeepsOut(lines[i], '\n');
    }
    FilterMapKeeps(lines, CleanLine, (c: Cell) => '\n' !in c.text);
  }

  /** Every heading line of a report gives a paragraph of its own. */
  lemma HeadingsAlwaysPrinted(lines: seq<string>)
    requires forall i :: 0 <= i < |lines| ==> "#" <= Strip(lines[i])
    ensures |FilterMap(lines, CleanLine)| == |lines|
    ensures forall k :: 0 <= k < |FilterMap(lines, CleanLine)| ==> FilterMap(lines, CleanLine)[k].isHeader
  {
    FilterMapCount(lines, CleanLine);
    FilterMapKeeps(lines, CleanLine, (c: Cell) => c.isHeader);
  }
}
