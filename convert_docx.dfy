/**
 * src/app/api/convert-docx/route.ts: the order of the checks `POST` makes
 * on an upload, the three Markdown rules it adds to its HTML-to-Markdown
 * converter for tables, and the formatting of the converter's messages.
 *
 * The DOCX-to-HTML conversion and the converter's own traversal are not
 * modelled: what they produce is the value `Conversion`, and a table
 * reaches the table rule as the text of its cells, row by row.
 */
module ConvertDocx {
  import opened Wrappers
  import opened Text
  import opened Auth

  /** `formData.get("file")` */
  datatype FormField = NoField | NotAFile | UploadedFile(name: string, size: int)

  datatype ConversionMessage = ConversionMessage(kind: string, message: string)

  /** What the conversion gave: the Markdown and the warnings. */
  datatype Conversion = Conversion(markdown: string, messages: seq<ConversionMessage>)

  datatype DocxResponse =
    | AuthRejected(auth: AuthOutcome)
    | Failure(status: int, error: string)
    | Converted(markdown: string, messages: seq<string>)

  /** `100 * 1024 * 1024` bytes. */
  const MAX_DOCX_SIZE: int := 100 * 1024 * 1024

  /** `${m.type}: ${m.message}` */
  function FormatMessage(m: ConversionMessage): string
  {
    m.kind + ": " + m.message
  }

  function FormatMessages(ms: seq<ConversionMessage>): (r: seq<string>)
    ensures |r| == |ms| && forall i :: 0 <= i < |ms| ==> r[i] == FormatMessage(ms[i])
  {
    seq(|ms|, i requires 0 <= i < |ms| => FormatMessage(ms[i]))
  }

  /** `POST(req)` for the outcome of `verifyAuth`, the form's `file` field
      (`None` when the form cannot be read) and the conversion (`None` when
      it throws). */
  function HandleConvert(auth: AuthOutcome, form: Option<FormField>, conversion: Option<Conversion>): (r: DocxResponse)
    ensures auth.Reject? <==> r.AuthRejected?
    ensures r.AuthRejected? ==> r.auth == auth
    ensures r.Converted? ==>
      && form.Some? && form.value.UploadedFile? && form.value.size <= MAX_DOCX_SIZE
      && EndsWith(form.value.name, ".docx") && conversion.Some?
      && r.markdown == conversion.value.markdown
      && r.messages == FormatMessages(conversion.value.messages)
  {
    if auth.Reject? then AuthRejected(auth)
    else if form.None? then Failure(500, "DOCX 转换失败")
    else
      match form.value
      case NoField => Failure(400, "未提供文件")
      case NotAFile => Failure(400, "未提供文件")
      case UploadedFile(name, size) =>
        if size > MAX_DOCX_SIZE then Failure(413, "File too large. Maximum 100MB.")
        else if !EndsWith(name, ".docx") then Failure(400, "仅支持 .docx 格式")
        else if conversion.None? then Failure(500, "DOCX 转换失败")
        else Converted(conversion.value.markdown, FormatMessages(conversion.value.messages))
  }

  /** The checks run in order: the size before the name, so an oversized
      file is refused for its size whatever its name; exactly 100 MB
      passes. */
  lemma CheckOrder(name: string, size: int, conversion: Option<Conversion>)
    ensures size > MAX_DOCX_SIZE ==>
      HandleConvert(Pass, Some(UploadedFile(name, size)), conversion) == Failure(413, "File too large. Maximum 100MB.")
    ensures size <= MAX_DOCX_SIZE && !EndsWith(name, ".docx") ==>
      HandleConvert(Pass, Some(UploadedFile(name, size)), conversion) == Failure(400, "仅支持 .docx 格式")
    ensures size <= MAX_DOCX_SIZE && EndsWith(name, ".docx") ==>
      (HandleConvert(Pass, Some(UploadedFile(name, size)), conversion).Converted? <==> conversion.Some?)
  {
  }

  /** The `tableCell` rule. */
  function CellRule(content: string): string
  {
    " " + Trim(content) + " |"
  }

  /** The `tableRow` rule. */
  function RowRule(content: string): string
  {
    "|" + content + "\n"
  }

  /** The cells of a row, each through the cell rule, one after another. */
  function CellsRule(cells: seq<string>): string
  {
    if cells == [] then "" else CellsRule(cells[..|cells| - 1]) + CellRule(cells[|cells| - 1])
  }

  /** `cells.map(c => c.trim())` */
  function TrimAll(cells: seq<string>): (r: seq<string>)
    ensures |r| == |cells|
    ensures forall i :: 0 <= i < |cells| ==> r[i] == Trim(cells[i])
  {
    if cells == [] then [] else TrimAll(cells[..|cells| - 1]) + [Trim(cells[|cells| - 1])]
  }

  /** `| ${texts.join(" | ")} |` */
  function Line(texts: seq<string>): string
  {
    "| " + Join(texts, " | ") + " |"
  }

  /** The line of a row: its cells' text, trimmed. */
  function RowLine(cells: seq<string>): string
  {
    Line(TrimAll(cells))
  }

  /** The header separator for a first row of `n` cells. */
  function SeparatorLine(n: nat): string
  {
    Line(seq(n, _ => "---"))
  }

  /** The lines made from the first `k` rows, each rendered by `line`, with
      the separator after the first. */
  function LinesOf(rows: seq<seq<string>>, k: nat, line: seq<string> -> string): (lines: seq<string>)
    requires k <= |rows|
  {
    if k == 0 then []
    else LinesOf(rows, k - 1, line) + [line(rows[k - 1])]
         + (if k == 1 then [SeparatorLine(|rows[0]|)] else [])
  }

  /** The lines of a table, set apart by blank lines. */
  function Block(lines: seq<string>): string
  {
    "\n" + Join(lines, "\n") + "\n\n"
  }

  /** The `table` rule's output for a table with these rows. */
  function TableMarkdown(rows: seq<seq<string>>): string
  {
    if rows == [] then "" else Block(LinesOf(rows, |rows|, RowLine))
  }

  /** The `table` rule, with its loop over the rows. */
  method TableRule(rows: seq<seq<string>>) returns (md: string)
    ensures md == TableMarkdown(rows)
  {
    if |rows| == 0 {
      return "";
    }
    md := RowLines(rows);
  }

  /** The loop over the rows of a table that has some. */
  method RowLines(rows: seq<seq<string>>) returns (md: string)
    requires rows != []
    ensures md == Block(LinesOf(rows, |rows|, RowLine))
  {
    var lines: seq<string> := [];
    for i := 0 to |rows|
      invariant lines == LinesOf(rows, i, RowLine)
    {
      var line, width := RenderRow(rows[i]);
      LinesStep(rows, i, RowLine);
      lines := lines + [line];
      if i == 0 {
        lines := lines + [SeparatorLine(width)];
      }
    }
    md := Block(lines);
  }

  /** The body of the loop over rows: a row's trimmed cell texts, joined
      into its line. */
  method RenderRow(cells: seq<string>) returns (line: string, width: nat)
    ensures line == RowLine(cells) && width == |cells|
  {
    var cellTexts := CellTexts(cells);
    line := Line(cellTexts);
    width := |cellTexts|;
  }

  lemma LinesStep(rows: seq<seq<string>>, i: nat, line: seq<string> -> string)
    requires i < |rows|
    ensures LinesOf(rows, i + 1, line)
         == LinesOf(rows, i, line) + [line(rows[i])] + (if i == 0 then [SeparatorLine(|rows[0]|)] else [])
  {
  }

  /** The trimmed text of each cell of a row, collected one by one. */
  method CellTexts(cells: seq<string>) returns (texts: seq<string>)
    ensures texts == TrimAll(cells)
  {
    texts := [];
    for j := 0 to |cells|
      invariant texts == TrimAll(cells[..j])
    {
      assert cells[..j + 1][..j] == cells[..j];
      texts := texts + [Trim(cells[j])];
    }
    assert cells[..|cells|] == cells;
  }

  /** A table of `n` rows has `n + 1` lines: the first row, the separator
      sized to it, then the other rows in order. */
  lemma {:induction false} TableLines(rows: seq<seq<string>>, k: nat, line: seq<string> -> string)
    requires 1 <= k <= |rows|
    ensures |LinesOf(rows, k, line)| == k + 1
    ensures LinesOf(rows, k, line)[0] == line(rows[0])
    ensures LinesOf(rows, k, line)[1] == SeparatorLine(|rows[0]|)
    ensures forall j :: 1 <= j < k ==> LinesOf(rows, k, line)[j + 1] == line(rows[j])
  {
    if k > 1 {
      TableLines(rows, k - 1, line);
      var prev := LinesOf(rows, k - 1, line);
      var lines := LinesOf(rows, k, line);
      assert lines == prev + [line(rows[k - 1])];
      forall j | 1 <= j < k ensures lines[j + 1] == line(rows[j]) {
        if j < k - 1 {
          assert lines[j + 1] == prev[j + 1];
        }
      }
    }
  }

  /** The table of `n` rows: its first row, a separator with one `---` per
      cell of the first row, then every other row, trimmed. */
  lemma TableShape(rows: seq<seq<string>>)
    requires rows != []
    ensures var lines := LinesOf(rows, |rows|, RowLine);
      && TableMarkdown(rows) == "\n" + Join(lines, "\n") + "\n\n"
      && |lines| == |rows| + 1
      && lines[0] == RowLine(rows[0]) && lines[1] == SeparatorLine(|rows[0]|)
      && forall j :: 1 <= j < |rows| ==> lines[j + 1] == RowLine(rows[j])
  {
    TableLines(rows, |rows|, RowLine);
  }

  /** A row the converter renders through the row and cell rules reads the
      same as the table rule's line for it, when it has at least one cell. */
  lemma RowRulesAgree(cells: seq<string>)
    requires cells != []
    ensures RowRule(CellsRule(cells)) == RowLine(cells) + "\n"
  {
    CellsAgree(cells);
  }

  lemma CellsAgree(cells: seq<string>)
    requires cells != []
    ensures "|" + CellsRule(cells) == RowLine(cells)
  {
    CellsRuleTrims(cells);
    LineOfCells(TrimAll(cells));
  }

  /** Already trimmed texts, each as the cell rule writes it. */
  function Cells(texts: seq<string>): string
  {
    if texts == [] then "" else Cells(texts[..|texts| - 1]) + (" " + texts[|texts| - 1] + " |")
  }

  lemma {:induction false} CellsRuleTrims(cells: seq<string>)
    ensures CellsRule(cells) == Cells(TrimAll(cells))
  {
    if cells != [] {
      var init := cells[..|cells| - 1];
      CellsRuleTrims(init);
      var texts := TrimAll(cells);
      assert texts[..|texts| - 1] == TrimAll(init);
    }
  }

  lemma {:induction false} LineOfCells(texts: seq<string>)
    requires texts != []
    ensures "|" + Cells(texts) == Line(texts)
  {
    var n := |texts|;
    var t := texts[n - 1];
    var init := texts[..n - 1];
    if n == 1 {
      assert Cells(texts) == Cells([]) + (" " + t + " |");
      assert texts == [t];
      assert "|" + (" " + t + " |") == "| " + t + " |";
    } else {
      LineOfCells(init);
      assert texts == init + [t];
      JoinAppend(init, t, " | ");
      Glue(Join(init, " | "), t);
    }
  }

  /** Closing one line and appending a cell gives the line with that cell. */
  lemma Glue(j: string, t: string)
    ensures "| " + j + " |" + (" " + t + " |") == "| " + (j + " | " + t) + " |"
  {
    assert " |" + " " == " | ";
  }

  /** A table without rows renders as nothing. */
  lemma EmptyTable()
    ensures TableMarkdown([]) == ""
  {
  }
}
