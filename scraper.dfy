/**
 * The EC2 instance-type scraper of resize/aws.go, from the parsed document
 * onward: parseRow, the search for the instance-type matrix, the walks to
 * the table wrapper and the loop over the table's rows.
 */
module Scraper {
  import opened Wrappers
  import opened Strings
  import opened Strconv
  import opened Html
  import opened Search

  /** A Go float64, kept as its IEEE-754 bit pattern. */
  type Float64 = bv64

  /** One row of the instance-type matrix; the comments give the column. */
  datatype InstanceType = InstanceType(
    name: string,             // 0
    cpus: int,                // 1
    memory: Float64,          // 2, GiB
    storage: string,          // 3
    networkSpec: string,      // 4
    processor: string,        // 5
    clockSpeed: Float64,      // 6, GHz
    intelAVX: bool,           // 7
    intelAVX2: bool,          // 8
    intelTurbo: bool,         // 9
    ebsOpt: bool,             // 10
    enhancedNetworking: bool) // 11

  /** The zero value `InstanceType{}`. */
  const ZeroInstanceType := InstanceType("", 0, 0, "", "", "", 0, false, false, false, false, false)

  const Columns: nat := 12
  const MatrixId := "instance-type-matrix"

  /** The errors the scraper returns; Message gives their text. */
  datatype ScrapeError =
    | ColumnCount(count: nat)
    | ExpectedNumber(field: string, got: string)
    | NoMatrix
    | NoTitleWrapper
    | NoTableWrapper
    | NoTable

  function Message(e: ScrapeError): string
  {
    match e
    case ColumnCount(count) => "expected 12 columns, got " + Itoa(count)
    case ExpectedNumber(field, got) => "expected number for " + field + ", got '" + got + "'"
    case NoMatrix => "no node with id 'instance-type-matrix'"
    case NoTitleWrapper => "malformed HTML: title-wrapper not found"
    case NoTableWrapper => "malformed HTML: table-wrapper not found"
    case NoTable => "malformed HTML: could not find table"
  }

  /** What parseRow returns: a record and an error, the record zero when there is an error. */
  datatype Parsed = Parsed(value: InstanceType, err: Option<ScrapeError>)

  /** yesNo: the lower-cased text is exactly "yes". */
  function YesNo(s: string): (r: bool)
    ensures r <==> |s| == 3 && (s[0] == 'y' || s[0] == 'Y') && (s[1] == 'e' || s[1] == 'E') && (s[2] == 's' || s[2] == 'S')
  {
    var lower := ToLower(s);
    assert |lower| == 3 ==> lower[0] == ToLowerChar(s[0]) && lower[1] == ToLowerChar(s[1]) && lower[2] == ToLowerChar(s[2]);
    lower == "yes"
  }

  lemma YesNoExamples()
    ensures YesNo("yes") && YesNo("Yes") && YesNo("YES")
    ensures !YesNo("") && !YesNo("no") && !YesNo("n/a") && !YesNo("maybe") && !YesNo(" yes")
  {
  }

  /** The `td` cells of a row, as parseRow finds them. */
  function Cells(t: Tree, row: nat): (r: seq<nat>)
    requires Valid(t) && row < |t|
    ensures AllIn(t, r)
  {
    FindAll(t, row, ByTag(Td))
  }

  /** The text of each cell, in order. */
  function CellTexts(t: Tree, cols: seq<nat>): (r: seq<string>)
    requires Valid(t) && AllIn(t, cols)
    ensures |r| == |cols|
  {
    if cols == [] then [] else [TextOf(t, cols[0])] + CellTexts(t, cols[1..])
  }

  lemma {:induction false} CellTextsAt(t: Tree, cols: seq<nat>, i: nat)
    requires Valid(t) && AllIn(t, cols) && i < |cols|
    ensures CellTexts(t, cols)[i] == TextOf(t, cols[i])
  {
    if i > 0 {
      CellTextsAt(t, cols[1..], i - 1);
    }
  }

  /**
   * The body of parseRow after the column count is checked, on the twelve
   * cell texts: CPUs must pass Atoi, Memory and ClockSpeed must pass
   * `parseFloat` (strconv.ParseFloat), tried in that order. A failed
   * ClockSpeed is reported as Memory with the Memory cell's text, as the
   * source does.
   */
  function ParseCells(texts: seq<string>, parseFloat: string -> Option<Float64>): (r: Parsed)
    requires |texts| == Columns
    ensures r.err.Some? ==> r.value == ZeroInstanceType
  {
    var base := InstanceType(
      name := texts[0],
      cpus := 0,
      memory := 0,
      storage := texts[3],
      networkSpec := texts[4],
      processor := texts[5],
      clockSpeed := 0,
      intelAVX := YesNo(texts[7]),
      intelAVX2 := YesNo(texts[8]),
      intelTurbo := YesNo(texts[9]),
      ebsOpt := YesNo(texts[10]),
      enhancedNetworking := YesNo(texts[11]));
    match Atoi(texts[1])
    case None => Parsed(ZeroInstanceType, Some(ExpectedNumber("CPUs", texts[1])))
    case Some(cpus) =>
      match parseFloat(texts[2])
      case None => Parsed(ZeroInstanceType, Some(ExpectedNumber("Memory", texts[2])))
      case Some(memory) =>
        match parseFloat(texts[6])
        case None => Parsed(ZeroInstanceType, Some(ExpectedNumber("Memory", texts[2])))
        case Some(clock) => Parsed(base.(cpus := cpus, memory := memory, clockSpeed := clock), None)
  }

  /**
   * A row parses exactly when CPUs passes Atoi and Memory and ClockSpeed
   * pass `parseFloat`; each field then holds its column's value.
   */
  lemma ParseCellsFields(texts: seq<string>, parseFloat: string -> Option<Float64>)
    requires |texts| == Columns
    ensures var r := ParseCells(texts, parseFloat);
            && (r.err.None? <==>
                  Atoi(texts[1]).Some? && parseFloat(texts[2]).Some? && parseFloat(texts[6]).Some?)
            && (r.err.None? ==>
                  var v := r.value;
                  && v.name == texts[0]
                  && Atoi(texts[1]) == Some(v.cpus)
                  && parseFloat(texts[2]) == Some(v.memory)
                  && v.storage == texts[3]
                  && v.networkSpec == texts[4]
                  && v.processor == texts[5]
                  && parseFloat(texts[6]) == Some(v.clockSpeed)
                  && v.intelAVX == YesNo(texts[7])
                  && v.intelAVX2 == YesNo(texts[8])
                  && v.intelTurbo == YesNo(texts[9])
                  && v.ebsOpt == YesNo(texts[10])
                  && v.enhancedNetworking == YesNo(texts[11]))
  {
  }

  /** parseRow: exactly twelve `td` cells, else a column-count error. */
  function ParseRow(t: Tree, row: nat, parseFloat: string -> Option<Float64>): (r: Parsed)
    requires Valid(t) && row < |t|
    ensures r.err.Some? ==> r.value == ZeroInstanceType
    ensures |Cells(t, row)| != Columns ==> r == Parsed(ZeroInstanceType, Some(ColumnCount(|Cells(t, row)|)))
  {
    var cols := Cells(t, row);
    if |cols| != Columns then Parsed(ZeroInstanceType, Some(ColumnCount(|cols|)))
    else ParseCells(CellTexts(t, cols), parseFloat)
  }

  /**
   * A row with twelve cells is parsed from the cells' texts: field `i`
   * comes from `text` of cell `i`.
   */
  lemma ParseRowFromTexts(t: Tree, row: nat, parseFloat: string -> Option<Float64>)
    requires Valid(t) && row < |t| && |Cells(t, row)| == Columns
    ensures var texts := CellTexts(t, Cells(t, row));
            && (forall i | 0 <= i < Columns :: texts[i] == TextOf(t, Cells(t, row)[i]))
            && ParseRow(t, row, parseFloat) == ParseCells(texts, parseFloat)
  {
    forall i | 0 <= i < Columns
      ensures CellTexts(t, Cells(t, row))[i] == TextOf(t, Cells(t, row)[i])
    {
      CellTextsAt(t, Cells(t, row), i);
    }
  }

  /**
   * parseRow on a row: it succeeds exactly when the row has twelve cells,
   * the text of cell 1 passes Atoi and those of cells 2 and 6 pass
   * `parseFloat`; every field then comes from the text of its cell, the
   * flags being true exactly for the cells whose text reads "yes".
   */
  lemma ParseRowFields(t: Tree, row: nat, parseFloat: string -> Option<Float64>)
    requires Valid(t) && row < |t|
    ensures var r := ParseRow(t, row, parseFloat);
            var cols := Cells(t, row);
            && (r.err.None? <==>
                  && |cols| == Columns
                  && Atoi(TextOf(t, cols[1])).Some?
                  && parseFloat(TextOf(t, cols[2])).Some?
                  && parseFloat(TextOf(t, cols[6])).Some?)
            && (r.err.None? ==>
                  var v := r.value;
                  && v.name == TextOf(t, cols[0])
                  && Atoi(TextOf(t, cols[1])) == Some(v.cpus)
                  && parseFloat(TextOf(t, cols[2])) == Some(v.memory)
                  && v.storage == TextOf(t, cols[3])
                  && v.networkSpec == TextOf(t, cols[4])
                  && v.processor == TextOf(t, cols[5])
                  && parseFloat(TextOf(t, cols[6])) == Some(v.clockSpeed)
                  && v.intelAVX == YesNo(TextOf(t, cols[7]))
                  && v.intelAVX2 == YesNo(TextOf(t, cols[8]))
                  && v.intelTurbo == YesNo(TextOf(t, cols[9]))
                  && v.ebsOpt == YesNo(TextOf(t, cols[10]))
                  && v.enhancedNetworking == YesNo(TextOf(t, cols[11])))
  {
    if |Cells(t, row)| == Columns {
      ParseRowFromTexts(t, row, parseFloat);
      ParseCellsFields(CellTexts(t, Cells(t, row)), parseFloat);
    }
  }

  /**
   * The errors of a twelve-cell row, checked in the order CPUs, Memory,
   * ClockSpeed: a failed ClockSpeed is reported as Memory, with the text of
   * cell 2.
   */
  lemma ParseRowErrors(t: Tree, row: nat, parseFloat: string -> Option<Float64>)
    requires Valid(t) && row < |t| && |Cells(t, row)| == Columns
    ensures var r := ParseRow(t, row, parseFloat);
            var cols := Cells(t, row);
            && (Atoi(TextOf(t, cols[1])).None? ==>
                  r.err == Some(ExpectedNumber("CPUs", TextOf(t, cols[1]))))
            && (Atoi(TextOf(t, cols[1])).Some? && parseFloat(TextOf(t, cols[2])).None? ==>
                  r.err == Some(ExpectedNumber("Memory", TextOf(t, cols[2]))))
            && (Atoi(TextOf(t, cols[1])).Some? && parseFloat(TextOf(t, cols[2])).Some? && parseFloat(TextOf(t, cols[6])).None? ==>
                  r.err == Some(ExpectedNumber("Memory", TextOf(t, cols[2]))))
  {
    ParseRowFromTexts(t, row, parseFloat);
  }

  /** A CPUs cell that Atoi rejects is reported with its own text. */
  lemma CpusErrorEchoesCell(texts: seq<string>, parseFloat: string -> Option<Float64>)
    requires |texts| == Columns && Atoi(texts[1]).None?
    ensures ParseCells(texts, parseFloat) == Parsed(ZeroInstanceType, Some(ExpectedNumber("CPUs", texts[1])))
    ensures Message(ParseCells(texts, parseFloat).err.value) == "expected number for CPUs, got '" + texts[1] + "'"
  {
  }

  /**
   * A ClockSpeed cell that does not parse is reported as Memory, quoting
   * the Memory cell (column 2) rather than the ClockSpeed cell (column 6).
   */
  lemma ClockSpeedErrorNamesMemory(texts: seq<string>, parseFloat: string -> Option<Float64>)
    requires |texts| == Columns
    requires Atoi(texts[1]).Some? && parseFloat(texts[2]).Some? && parseFloat(texts[6]).None?
    ensures ParseCells(texts, parseFloat).err == Some(ExpectedNumber("Memory", texts[2]))
    ensures Message(ParseCells(texts, parseFloat).err.value) == "expected number for Memory, got '" + texts[2] + "'"
  {
  }

  /** The anchor test of findMatrix. */
  predicate IsMatrix(n: Node) {
    AttrOf(n.attr, "id") == MatrixId
  }

  /** findMatrix: `n` itself if it is the anchor, else the first child subtree holding one. */
  function FindMatrix(t: Tree, n: nat): (r: Option<nat>)
    requires Valid(t) && n < |t|
    ensures r.Some? ==> r.value < |t| && IsMatrix(t[r.value])
    decreases |t| - n, 0
  {
    if IsMatrix(t[n]) then Some(n) else FindMatrixFrom(t, t[n].firstChild)
  }

  /** The loop of findMatrix over the child `c` and the siblings after it. */
  function FindMatrixFrom(t: Tree, c: Link): (r: Option<nat>)
    requires Valid(t) && InTree(t, c)
    ensures r.Some? ==> r.value < |t| && IsMatrix(t[r.value])
    decreases if c.Some? then |t| - c.value else 0, 1
  {
    match c
    case None => None
    case Some(i) =>
      match FindMatrix(t, i)
      case Some(m) => Some(m)
      case None => FindMatrixFrom(t, t[i].nextSibling)
  }

  /**
   * findMatrix finds the first anchor in document order: the root is tested
   * before its children, children in sibling order.
   */
  lemma {:induction false} FindMatrixIsFirst(t: Tree, n: nat)
    requires Valid(t) && n < |t|
    ensures FindMatrix(t, n) == FirstIn(t, Preorder(t, n), IsMatrix)
    decreases |t| - n, 0
  {
    var rest := PreorderFrom(t, t[n].firstChild);
    assert Preorder(t, n) == [n] + rest && Preorder(t, n)[1..] == rest;
    if !IsMatrix(t[n]) {
      FindMatrixFromIsFirst(t, t[n].firstChild);
    }
  }

  lemma {:induction false} FindMatrixFromIsFirst(t: Tree, c: Link)
    requires Valid(t) && InTree(t, c)
    ensures FindMatrixFrom(t, c) == FirstIn(t, PreorderFrom(t, c), IsMatrix)
    decreases if c.Some? then |t| - c.value else 0, 1
  {
    if c.Some? {
      var i := c.value;
      FindMatrixIsFirst(t, i);
      FindMatrixFromIsFirst(t, t[i].nextSibling);
      FirstInConcat(t, Preorder(t, i), PreorderFrom(t, t[i].nextSibling), IsMatrix);
    }
  }

  /** The class test of the walks: `a` and `b` are both tokens of the class attribute. */
  predicate HasClasses(n: Node, a: string, b: string) {
    var classes := Fields(AttrOf(n.attr, "class"));
    a in classes && b in classes
  }

  predicate IsTitleWrapper(n: Node) {
    HasClasses(n, "section", "title-wrapper")
  }

  predicate IsTableWrapper(n: Node) {
    HasClasses(n, "section", "table-wrapper")
  }

  /**
   * The class test compares whole tokens: for a class attribute made of
   * tokens with any white space before, between and after them, a node is
   * a section of kind `kind` exactly when both words are among the tokens
   * ("table-wrappers" or "sectiontable-wrapper" do not count).
   */
  lemma ClassTokensMatchExactly(n: Node, lead: string, tokens: seq<string>, gaps: seq<string>, trail: string, kind: string)
    requires forall i | 0 <= i < |tokens| :: tokens[i] != [] && NoSpace(tokens[i])
    requires |tokens| == 0 || |gaps| + 1 == |tokens|
    requires forall i | 0 <= i < |gaps| :: gaps[i] != [] && AllSpace(gaps[i])
    requires AllSpace(lead) && AllSpace(trail)
    requires AttrOf(n.attr, "class") == lead + Spaced(tokens, gaps) + trail
    ensures HasClasses(n, "section", kind) <==> "section" in tokens && kind in tokens
  {
    FieldsOfPaddedSpaced(lead, tokens, gaps, trail);
  }

  /** contains: whether some element of `sli` equals `ele`. */
  method Contains(sli: seq<string>, ele: string) returns (found: bool)
    ensures found <==> ele in sli
  {
    for i := 0 to |sli|
      invariant ele !in sli[..i]
    {
      if sli[i] == ele {
        return true;
      }
    }
    assert sli[..|sli|] == sli;
    return false;
  }

  /** The test in both walks: the class tokens hold "section" and `kind`. */
  method IsSection(n: Node, kind: string) returns (b: bool)
    ensures b == HasClasses(n, "section", kind)
  {
    var classAttr := Attr(n, "class");
    var classes := Fields(classAttr);
    b := Contains(classes, "section");
    if b {
      b := Contains(classes, kind);
    }
  }

  /**
   * The upward walk: from the anchor's parent (not the anchor) to the first
   * ancestor that is a title wrapper, or nil.
   */
  method FindTitleWrapper(t: Tree, matrixHeader: nat) returns (section: Link)
    requires Valid(t) && matrixHeader < |t|
    ensures section == FirstIn(t, Ancestors(t, t[matrixHeader].parent), IsTitleWrapper)
  {
    section := t[matrixHeader].parent;
    while section.Some?
      invariant InTree(t, section)
      invariant FirstIn(t, Ancestors(t, t[matrixHeader].parent), IsTitleWrapper)
             == FirstIn(t, Ancestors(t, section), IsTitleWrapper)
      decreases if section.Some? then section.value + 1 else 0
    {
      var found := IsSection(t[section.value], "title-wrapper");
      if found {
        break;
      }
      section := t[section.value].parent;
    }
  }

  /**
   * The forward walk: from the header's next sibling (not the header) to the
   * first sibling that is a table wrapper, or nil.
   */
  method FindTableWrapper(t: Tree, section: nat) returns (next: Link)
    requires Valid(t) && section < |t|
    ensures next == FirstIn(t, Siblings(t, t[section].nextSibling), IsTableWrapper)
  {
    next := t[section].nextSibling;
    while next.Some?
      invariant InTree(t, next)
      invariant FirstIn(t, Siblings(t, t[section].nextSibling), IsTableWrapper)
             == FirstIn(t, Siblings(t, next), IsTableWrapper)
      decreases if next.Some? then |t| - next.value else 0
    {
      var found := IsSection(t[next.value], "table-wrapper");
      if found {
        break;
      }
      next := t[next.value].nextSibling;
    }
  }

  /** The section locator: anchor, then title wrapper above it, then table wrapper after that. */
  function Locate(t: Tree, root: nat): (r: Result<nat, ScrapeError>)
    requires Valid(t) && root < |t|
    ensures r.Success? ==> r.value < |t| && IsTableWrapper(t[r.value])
    ensures r.Failure? ==> r.error in {NoMatrix, NoTitleWrapper, NoTableWrapper}
    ensures r == Failure(NoMatrix) <==> FindMatrix(t, root).None?
  {
    match FindMatrix(t, root)
    case None => Failure(NoMatrix)
    case Some(anchor) =>
      match FirstIn(t, Ancestors(t, t[anchor].parent), IsTitleWrapper)
      case None => Failure(NoTitleWrapper)
      case Some(header) =>
        match FirstIn(t, Siblings(t, t[header].nextSibling), IsTableWrapper)
        case None => Failure(NoTableWrapper)
        case Some(wrapper) => Success(wrapper)
  }

  /** With an anchor but no title wrapper among its proper ancestors, the locator fails so. */
  lemma NoTitleWrapperAboveAnchor(t: Tree, root: nat)
    requires Valid(t) && root < |t| && FindMatrix(t, root).Some?
    requires var a := FindMatrix(t, root).value;
             forall k | 0 <= k < |Ancestors(t, t[a].parent)| :: !IsTitleWrapper(t[Ancestors(t, t[a].parent)[k]])
    ensures Locate(t, root) == Failure(NoTitleWrapper)
  {
  }

  /** With a title wrapper but no later sibling that is a table wrapper, the locator fails so. */
  lemma NoTableWrapperAfterHeader(t: Tree, root: nat, header: nat)
    requires Valid(t) && root < |t| && FindMatrix(t, root).Some?
    requires FirstIn(t, Ancestors(t, t[FindMatrix(t, root).value].parent), IsTitleWrapper) == Some(header)
    requires forall k | 0 <= k < |Siblings(t, t[header].nextSibling)| ::
               !IsTableWrapper(t[Siblings(t, t[header].nextSibling)[k]])
    ensures Locate(t, root) == Failure(NoTableWrapper)
  {
  }

  /** parseRow as a function value, defined on the nodes of the tree. */
  function RowParser(t: Tree, parseFloat: string -> Option<Float64>): nat --> Parsed
  {
    (row: nat) requires Valid(t) && row < |t| => ParseRow(t, row, parseFloat)
  }

  /** A row parser applied to each row, in order. */
  function MapRows(rows: seq<nat>, parse: nat --> Parsed): (r: seq<Parsed>)
    requires forall i | 0 <= i < |rows| :: parse.requires(rows[i])
    ensures |r| == |rows|
  {
    seq(|rows|, i requires 0 <= i < |rows| => parse(rows[i]))
  }

  /** parseRow applied to each row, in order. */
  function ParseRows(t: Tree, rows: seq<nat>, parseFloat: string -> Option<Float64>): (r: seq<Parsed>)
    requires Valid(t) && AllIn(t, rows)
    ensures |r| == |rows|
  {
    MapRows(rows, RowParser(t, parseFloat))
  }

  lemma ParseRowsAt(t: Tree, rows: seq<nat>, parseFloat: string -> Option<Float64>, i: nat)
    requires Valid(t) && AllIn(t, rows) && i < |rows|
    ensures ParseRows(t, rows, parseFloat)[i] == ParseRow(t, rows[i], parseFloat)
  {
  }

  /**
   * The outcome of the row loop: every record when no row failed,
   * otherwise the error of the first row that failed and no records.
   */
  function Collect(parsed: seq<Parsed>): (r: Result<seq<InstanceType>, ScrapeError>)
    ensures r.Success? <==> forall i | 0 <= i < |parsed| :: parsed[i].err.None?
    ensures r.Success? ==>
              && |r.value| == |parsed|
              && forall i | 0 <= i < |parsed| :: r.value[i] == parsed[i].value
    ensures forall i | 0 <= i < |parsed| && parsed[i].err.Some? && (forall j | 0 <= j < i :: parsed[j].err.None?) ::
              r == Failure(parsed[i].err.value)
  {
    if parsed == [] then Success([])
    else if parsed[0].err.Some? then Failure(parsed[0].err.value)
    else
      var rest := Collect(parsed[1..]);
      assert forall i | 1 <= i < |parsed| :: parsed[1..][i - 1] == parsed[i];
      match rest
      case Failure(e) => Failure(e)
      case Success(types) => Success([parsed[0].value] + types)
  }

  /** The rows of the located table, header row included. */
  function TableRows(t: Tree, wrapper: nat): (r: seq<nat>)
    requires Valid(t) && wrapper < |t|
    ensures AllIn(t, r)
  {
    FindAll(t, wrapper, ByTag(Tr))
  }

  /**
   * The scraper after parsing: locate the table, require three rows, drop
   * the first and parse the rest. On success there is one record per
   * remaining row, in document order; any error leaves no partial catalog.
   */
  function Catalog(t: Tree, root: nat, parseFloat: string -> Option<Float64>): (r: Result<seq<InstanceType>, ScrapeError>)
    requires Valid(t) && root < |t|
    ensures Locate(t, root).Failure? ==> r == Failure(Locate(t, root).error)
    ensures r.Success? ==>
              && Locate(t, root).Success?
              && var rows := TableRows(t, Locate(t, root).value);
              && |rows| >= 3
              && |r.value| == |rows| - 1
    ensures Locate(t, root).Success? && |TableRows(t, Locate(t, root).value)| < 3 ==> r == Failure(NoTable)
  {
    match Locate(t, root)
    case Failure(e) => Failure(e)
    case Success(wrapper) =>
      var rows := TableRows(t, wrapper);
      if |rows| < 3 then Failure(NoTable)
      else
        Collect(ParseRows(t, rows[1..], parseFloat))
  }

  /** Each record that Collect returns is the value parseRow gives for the row at its position. */
  lemma CollectedRow(t: Tree, rows: seq<nat>, parseFloat: string -> Option<Float64>, i: nat)
    requires Valid(t) && AllIn(t, rows) && i < |rows| && Collect(ParseRows(t, rows, parseFloat)).Success?
    ensures ParseRow(t, rows[i], parseFloat) == Parsed(Collect(ParseRows(t, rows, parseFloat)).value[i], None)
  {
    ParseRowsAt(t, rows, parseFloat, i);
  }

  /** The rows collect to the error of the first row that parseRow rejects. */
  lemma FirstFailingRow(t: Tree, rows: seq<nat>, parseFloat: string -> Option<Float64>, i: nat)
    requires Valid(t) && AllIn(t, rows) && i < |rows|
    requires ParseRow(t, rows[i], parseFloat).err.Some?
    requires forall j | 0 <= j < i :: ParseRow(t, rows[j], parseFloat).err.None?
    ensures Collect(ParseRows(t, rows, parseFloat)) == Failure(ParseRow(t, rows[i], parseFloat).err.value)
  {
    var parsed := ParseRows(t, rows, parseFloat);
    forall j | 0 <= j <= i
      ensures parsed[j] == ParseRow(t, rows[j], parseFloat)
    {
      ParseRowsAt(t, rows, parseFloat, j);
    }
    CollectFirstFailure(parsed, i);
  }

  /** Once the table is located and has three rows, the catalog is what its data rows collect to. */
  lemma CatalogOfTable(t: Tree, root: nat, parseFloat: string -> Option<Float64>, w: nat)
    requires Valid(t) && root < |t| && Locate(t, root) == Success(w) && |TableRows(t, w)| >= 3
    ensures Catalog(t, root, parseFloat) == Collect(ParseRows(t, TableRows(t, w)[1..], parseFloat))
  {
  }

  /**
   * Each record of a successful catalog is parseRow of the table row one
   * further down: record `i` comes from row `i + 1`, the header row being
   * skipped.
   */
  lemma CatalogRecord(t: Tree, root: nat, parseFloat: string -> Option<Float64>, i: nat)
    requires Valid(t) && root < |t| && Catalog(t, root, parseFloat).Success?
    requires i < |Catalog(t, root, parseFloat).value|
    ensures var rows := TableRows(t, Locate(t, root).value);
            i + 1 < |rows| && ParseRow(t, rows[i + 1], parseFloat) == Parsed(Catalog(t, root, parseFloat).value[i], None)
  {
    var w := Locate(t, root).value;
    var rows := TableRows(t, w);
    CatalogOfTable(t, root, parseFloat, w);
    CollectedRow(t, rows[1..], parseFloat, i);
  }

  /**
   * The locating half of InstanceTypes: the matrix anchor, the title
   * wrapper above it and the table wrapper after that.
   */
  method LocateTable(t: Tree, root: nat) returns (r: Result<nat, ScrapeError>)
    requires Valid(t) && root < |t|
    ensures r == Locate(t, root)
  {
    var matrixHeader := FindMatrix(t, root);
    if matrixHeader.None? {
      return Failure(NoMatrix);
    }
    var section := FindTitleWrapper(t, matrixHeader.value);
    if section.None? {
      return Failure(NoTitleWrapper);
    }
    var next := FindTableWrapper(t, section.value);
    if next.None? {
      return Failure(NoTableWrapper);
    }
    return Success(next.value);
  }

  /**
   * InstanceTypes after html.Parse: locate the table, check it has three
   * rows, drop the header row and parse the rest into `types`.
   */
  method InstanceTypes(t: Tree, root: nat, parseFloat: string -> Option<Float64>)
    returns (r: Result<seq<InstanceType>, ScrapeError>)
    requires Valid(t) && root < |t|
    ensures r == Catalog(t, root, parseFloat)
  {
    var located := LocateTable(t, root);
    if located.Failure? {
      return Failure(located.error);
    }
    var rows := FindAll(t, located.value, ByTag(Tr));
    if |rows| < 3 {
      return Failure(NoTable);
    }
    rows := rows[1..];
    r := ParseEach(rows, RowParser(t, parseFloat));
  }

  /**
   * The row loop of InstanceTypes, for any row parser: parse each row into
   * `types`, stopping at the first row that fails.
   */
  method ParseEach(rows: seq<nat>, parse: nat --> Parsed) returns (r: Result<seq<InstanceType>, ScrapeError>)
    requires forall i | 0 <= i < |rows| :: parse.requires(rows[i])
    ensures r == Collect(MapRows(rows, parse))
  {
    ghost var all := MapRows(rows, parse);
    var types := new InstanceType[|rows|];
    for i := 0 to |rows|
      invariant forall k | 0 <= k < i :: all[k].err.None? && types[k] == all[k].value
    {
      var parsed := parse(rows[i]);
      types[i] := parsed.value;
      if parsed.err.Some? {
        CollectFirstFailure(all, i);
        return Failure(parsed.err.value);
      }
    }
    CollectAllSuccess(all, types[..]);
    return Success(types[..]);
  }

  /**
   * Collect's first-failure clause, for one index: ParseEach calls it so
   * that the quantifier of that clause is instantiated at the failing row.
   */
  lemma CollectFirstFailure(parsed: seq<Parsed>, i: nat)
    requires i < |parsed| && parsed[i].err.Some?
    requires forall k | 0 <= k < i :: parsed[k].err.None?
    ensures Collect(parsed) == Failure(parsed[i].err.value)
  {
  }

  /**
   * Collect's success clauses, for the filled array: ParseEach calls it to
   * conclude from its loop invariant that the result is `types` itself.
   */
  lemma CollectAllSuccess(parsed: seq<Parsed>, values: seq<InstanceType>)
    requires |values| == |parsed|
    requires forall k | 0 <= k < |parsed| :: parsed[k].err.None? && values[k] == parsed[k].value
    ensures Collect(parsed) == Success(values)
  {
  }
}
