# EC2 instance-type scraper, modelled in Dafny

The `resize` service lists the EC2 instance types by scraping Amazon's public
instance-type page. `resize/aws.go` fetches the page, parses it with
`golang.org/x/net/html`, and then works on the parsed tree only:

1. It finds the anchor node whose `id` is `instance-type-matrix`.
2. It walks up to the enclosing `section title-wrapper` node.
3. It walks across to the next `section table-wrapper` sibling.
4. It collects the `tr` rows under that sibling and fails if there are fewer
   than three.
5. It drops the header row and turns every other row into an `InstanceType`
   with `parseRow`. The first row that fails aborts the whole call.

This project models that second half, from the parsed tree onward.

## Modules

- **Html** (`html.dfy`): the parsed document.
  - The tree is an arena of nodes that refer to their parent, first child and
    next sibling by index.
  - `Valid` requires a parent to come before its children and a node before
    its next sibling, so every walk ends. It also requires text nodes to be
    leaves, as they always are in what `html.Parse` builds; the proof that
    `text` reads every text node of a subtree (`Search.TextOfSubtree`) relies
    on it.
  - It defines the reference enumerations that the searches are proved
    against: `Preorder` (document order), `Ancestors`, `Siblings`, plus
    `FirstIn` and `Select` over them.
- **Strings** (`strings.dfy`): the Go `strings` functions the scraper calls.
  - `TrimSpace`, `Join`, `Fields` and `ToLower`.
  - White space is `unicode.IsSpace`.
- **Strconv** (`strconv.dfy`): `strconv.Atoi` over Go's 64-bit `int`, and
  `Itoa` for the column-count message.
- **Search** (`search.dfy`): `attr`, `findAll`, `byTag` and `text`.
  - `attr` and `text` keep their loops as methods.
  - Each method is proved equal to a function.
- **Scraper** (`scraper.dfy`): `InstanceType`, `parseRow`, `findMatrix`,
  `contains`, the two walks and `InstanceTypes` after parsing.
  - `contains`, the walks and the row loop are methods with loops.
  - The row loop fills an `InstanceType` array in place, as the source does.
  - `Catalog` is the function that specifies the whole method.

## Behaviour worth knowing

- `findAll` does not search below a node that matches, so a row nested inside
  a row is not found (`Search.FindAllPrunesNestedMatch`).
  - Where matches cannot nest, as with text nodes, `findAll` returns every
    match in document order (`Search.FindAllIsSelect`).
  - Whatever the matcher, the nodes `findAll` returns match and come in
    document order: they are a subsequence of all the matching nodes of the
    subtree (`Search.FindAllSubseqSelect`). This covers `td` cells and `tr`
    rows, which can nest when a table sits inside a cell.
- `text` trims white space at the two ends only. It does not collapse runs of
  white space inside the text (`Search.TextKeepsInnerSpace`).
- When ClockSpeed (cell 6) fails to parse, the error says "Memory" and quotes
  cell 2. The model keeps this message as written
  (`Scraper.ClockSpeedErrorNamesMemory`, `Scraper.ParseRowErrors`).

## Model

| member | source | states |
|---|---|---|
| Strings.IsSpace | resize/aws.go:103 | no contract of its own: the white space of `unicode.IsSpace` (U+0009 to U+000D, space, U+0085, U+00A0, U+1680, U+2000 to U+200A, U+2028, U+2029, U+202F, U+205F and U+3000); it decides both `TrimSpace` here and `Fields` at line 155 |
| Strings.TrimLeft | resize/aws.go:103 | the result is a suffix of the input; everything dropped is white space; the result does not start with white space |
| Strings.TrimRight | resize/aws.go:103 | the result is a prefix of the input; everything dropped is white space; the result does not end with white space |
| Strings.TrimSpace | resize/aws.go:103 | the result neither starts nor ends with white space; it is empty exactly when the input is all white space |
| Strings.TrimLeftOfPadded | resize/aws.go:103 | white space in front of a part that does not start with white space is removed exactly |
| Strings.TrimRightOfPadded | resize/aws.go:103 | white space behind a part that does not end with white space is removed exactly |
| Strings.TrimSpaceOfPadded | resize/aws.go:103 | TrimSpace of any white-space padding around a trimmed core gives back that core, inner white space included |
| Strings.Join | resize/aws.go:103 | no contract of its own: the parts with the separator between neighbours; Fields undoes it (Strings.FieldsOfJoin) |
| Strings.TokenLength | resize/aws.go:155 | the length of the leading token: it has no white space and is followed by white space or the end |
| Strings.Fields | resize/aws.go:155 | every token is non-empty and free of white space |
| Strings.FieldsOfSpace | resize/aws.go:155 | a string that is all white space has no tokens |
| Strings.FieldsOfToken | resize/aws.go:155 | a token followed by white space and a rest is split as that token, then the tokens of the rest |
| Strings.FieldsOfLeadingSpace | resize/aws.go:155 | white space in front of a string does not change its tokens |
| Strings.FieldsOfSeparated | resize/aws.go:155 | non-empty, space-free tokens joined by a white-space separator and followed by white space split back into exactly those tokens |
| Strings.FieldsOfJoin | resize/aws.go:155 | Fields undoes Join for non-empty, space-free tokens, any non-empty white-space separator and any white space before and after |
| Strings.Spaced | resize/aws.go:155 | no contract of its own: tokens with a given run of white space between each pair, used to describe any class attribute |
| Strings.FieldsOfSpaced | resize/aws.go:155 | non-empty, space-free tokens with white-space runs of any length and kind between them, and white space after, split back into exactly those tokens |
| Strings.FieldsOfPaddedSpaced | resize/aws.go:155 | the same with any white space in front: Fields recovers exactly the tokens of any such string |
| Strings.ToLower | resize/aws.go:38 | no contract of its own: ASCII letters lower-cased rune by rune, other runes kept; Scraper.YesNo states what the comparison with "yes" then means |
| Strconv.Atoi | resize/aws.go:52 | success exactly for an optional sign followed by one or more ASCII digits whose signed value fits in 64 bits; the result is that signed decimal value |
| Strconv.FormatNatDigits | resize/aws.go:35 | the decimal form of a count is a non-empty string of digits whose value is the count |
| Strconv.AtoiItoa | resize/aws.go:35 | Atoi reads back every 64-bit integer that Itoa writes |
| Strconv.Itoa | resize/aws.go:35 | no contract of its own: a minus sign for negative values, then the decimal digits without leading zeros; Strconv.FormatNatDigits and Strconv.AtoiItoa state what they mean |
| Html.Node | resize/aws.go:72-164 | no contract of its own: the `*html.Node` fields the scraper reads, `Type` (line 98), `DataAtom` (94), `Data` (101), `Attr` (72), `Parent` (154), `FirstChild` (87, 131) and `NextSibling` (87, 131, 164), the three links as indices into the tree, nil as `None` |
| Html.NodeType | resize/aws.go:98 | no contract of its own: the node types of `golang.org/x/net/html`; the scraper tests only for `TextNode` |
| Html.Atom | resize/aws.go:93-95 | no contract of its own: the interned tags `byTag` compares: `Td` and `Tr`, which the scraper asks for, `NoAtom` for Go's zero atom (text nodes and unknown tags) and `OtherAtom` for every other known tag |
| Html.Attribute | resize/aws.go:72-77 | no contract of its own: an attribute's namespace, key and value, of which `attr` compares the key and returns the value |
| Html.Valid | resize/aws.go:82-172 | no contract of its own: every link stays inside the tree, a parent comes before its children and a node before its next sibling, so the loops at lines 87, 131, 154 and 164 end; text nodes are leaves, which Search.TextOfSubtree relies on |
| Html.Preorder | resize/aws.go:82-91 | document order of a subtree starts at its root and stays inside the tree |
| Html.PreorderFrom | resize/aws.go:87-89 | the subtrees of a child and its later siblings, in order, inside the tree |
| Html.Ancestors | resize/aws.go:154 | the nodes the `Parent` loop visits, all inside the tree |
| Html.Siblings | resize/aws.go:164 | the nodes the `NextSibling` loop visits, all inside the tree |
| Html.FirstIn | resize/aws.go:126-172 | the first node of a sequence that satisfies a test: none exactly when no node does, otherwise the one at the least matching index |
| Html.Select | resize/aws.go:82-91 | the nodes of a sequence that satisfy a test, each from the sequence |
| Html.FirstInConcat | resize/aws.go:131-136 | the first match in `xs + ys` is the first in `xs` if there is one, else the first in `ys` |
| Html.SelectConcat | resize/aws.go:87-89 | selecting from `xs + ys` is selecting from `xs`, then from `ys` |
| Html.SelectNone | resize/aws.go:83-85 | with no node matching, nothing is selected |
| Html.SubseqConcat | resize/aws.go:87-89 | keeping elements in order is preserved by concatenation: subsequences of two parts concatenate to a subsequence of the whole |
| Search.AttrOf | resize/aws.go:71-78 | the value of the first attribute with the key; "" when no attribute has it |
| Search.Attr | resize/aws.go:71-78 | the early-return loop over the attributes returns AttrOf |
| Search.FindAll | resize/aws.go:82-91 | every node returned is in the tree and satisfies the matcher |
| Search.FindAllFrom | resize/aws.go:87-89 | every node the loop over the children collects is in the tree and satisfies the matcher |
| Search.FindAllInSubtree | resize/aws.go:82-91 | every node findAll returns lies in the subtree it searched |
| Search.FindAllFromInSubtrees | resize/aws.go:87-89 | every node found under a child or its later siblings lies in their subtrees |
| Search.FindAllIsSelect | resize/aws.go:82-91 | when matches do not nest, findAll returns exactly the matching nodes of the subtree in document order |
| Search.FindAllFromIsSelect | resize/aws.go:87-89 | the same for the loop over the children |
| Search.FindAllSubseqSelect | resize/aws.go:82-91 | for every matcher, nested matches included, findAll returns matching nodes of the subtree in document order: a subsequence of all of them |
| Search.FindAllFromSubseqSelect | resize/aws.go:87-89 | the same for the loop over the children |
| Search.ByTag | resize/aws.go:93-95 | no contract of its own: the matcher is true exactly for nodes whose `dataAtom` is the given atom |
| Search.IsText | resize/aws.go:98 | no contract of its own: the matcher text uses is true exactly for text nodes |
| Search.DataOf | resize/aws.go:99-102 | no contract of its own: the `data` of each node, in the order of the nodes; Search.Text is proved to fill `parts` with it |
| Search.FindAllPrunesNestedMatch | resize/aws.go:83-85 | a `tr` inside a `tr` is not found, although both are rows of the subtree |
| Search.TextOf | resize/aws.go:97-104 | the text has no white space at either end and is "" when the node has no text nodes |
| Search.Text | resize/aws.go:97-104 | the loop that fills `parts` by index, then joins and trims, returns TextOf |
| Search.TextOfSubtree | resize/aws.go:97-104 | text is the data of every text node of the subtree, in document order, joined with single spaces and trimmed |
| Search.TextOfOneTextChild | resize/aws.go:97-104 | a cell holding one text node gives back that node's data without its end padding |
| Search.TextKeepsInnerSpace | resize/aws.go:103 | the cell text " 4  GiB\n" becomes "4  GiB", keeping the double space inside |
| Scraper.InstanceType | resize/aws.go:15-28 | no contract of its own: the record of twelve fields, one per matrix column 0-11, in the struct's order and types (float64 as its bit pattern) |
| Scraper.ZeroInstanceType | resize/aws.go:35 | no contract of its own: the zero value `InstanceType{}` returned with every error; Scraper.ParseRow and Scraper.ParseCells state that every error comes with it |
| Scraper.ScrapeError | resize/aws.go:35-176 | no contract of its own: one value per error the scraper returns after parsing (column count, expected number, no anchor, no title wrapper, no table wrapper, no table); Scraper.Message gives each its text |
| Scraper.Parsed | resize/aws.go:32 | no contract of its own: `parseRow`'s `(InstanceType, error)` result, the error as `Option`; Scraper.ParseRow states that every error comes with the zero record |
| Scraper.YesNo | resize/aws.go:37-39 | a flag is true exactly when its text is "yes" in any mix of upper and lower case |
| Scraper.YesNoExamples | resize/aws.go:37-39 | "yes", "Yes" and "YES" give true; "", "no", "n/a", "maybe" and " yes" give false |
| Scraper.Cells | resize/aws.go:33 | the cells of a row are nodes of the tree |
| Scraper.CellTexts | resize/aws.go:41-49 | one text per cell |
| Scraper.CellTextsAt | resize/aws.go:41-49 | text number `i` is the text of cell `i` |
| Scraper.ParseCells | resize/aws.go:51-68 | any error comes with the zero record |
| Scraper.ParseCellsFields | resize/aws.go:37-68 | the cells parse exactly when CPUs passes Atoi and Memory and ClockSpeed pass ParseFloat; every field then holds the value of its column |
| Scraper.ParseRow | resize/aws.go:32-36 | any error comes with the zero record; a row without exactly twelve `td` cells gives the column-count error with the count found |
| Scraper.ParseRowFromTexts | resize/aws.go:40-50 | a twelve-cell row is parsed from the texts of its cells, cell `i` for column `i` |
| Scraper.ParseRowFields | resize/aws.go:32-69 | a row parses exactly when it has twelve cells whose CPUs, Memory and ClockSpeed texts are numbers; then Name, Storage, NetworkSpec and Processor are the texts of cells 0, 3, 4 and 5, the numbers are those of cells 1, 2 and 6, and each of the five flags (cells 7-11) is YesNo of its cell's text |
| Scraper.ParseRowErrors | resize/aws.go:52-67 | the checks run in the order CPUs, Memory, ClockSpeed; a bad CPUs quotes cell 1; a bad Memory and a bad ClockSpeed both name Memory and quote cell 2 |
| Scraper.CpusErrorEchoesCell | resize/aws.go:52-56 | a CPUs text that Atoi rejects gives the zero record and the message "expected number for CPUs, got '<text>'" |
| Scraper.ClockSpeedErrorNamesMemory | resize/aws.go:63-67 | a ClockSpeed text that does not parse gives the message "expected number for Memory, got '<cell 2>'" |
| Scraper.Message | resize/aws.go:35-176 | no contract of its own: the text `fmt.Errorf` gives for each error (lines 35, 54, 59, 65, 141, 161, 171 and 176), the count printed with Itoa; the two echo lemmas above state the number messages |
| Scraper.IsMatrix | resize/aws.go:128 | no contract of its own: a node is the anchor exactly when its first `id` attribute is "instance-type-matrix" |
| Scraper.FindMatrix | resize/aws.go:126-138 | a node found has the id "instance-type-matrix" |
| Scraper.FindMatrixFrom | resize/aws.go:131-136 | a node found under the children has that id |
| Scraper.FindMatrixIsFirst | resize/aws.go:126-142 | findMatrix returns the first node in document order whose id is "instance-type-matrix", and none when there is none |
| Scraper.FindMatrixFromIsFirst | resize/aws.go:131-136 | the loop over the children returns the first such node in their subtrees, in order |
| Scraper.HasClasses | resize/aws.go:155-156 | no contract of its own: both words are among the white-space separated tokens of the first `class` attribute; Scraper.ClassTokensMatchExactly states what it means |
| Scraper.ClassTokensMatchExactly | resize/aws.go:155-156 | for a class attribute of tokens with any white space before, between (each gap its own run) and after them, the class test holds exactly when "section" and the kind are whole tokens |
| Scraper.IsTitleWrapper | resize/aws.go:155-156 | no contract of its own: the class test of the upward walk, "section" and "title-wrapper" both among the class tokens |
| Scraper.IsTableWrapper | resize/aws.go:165-166 | no contract of its own: the class test of the forward walk, "section" and "table-wrapper" both among the class tokens |
| Scraper.Contains | resize/aws.go:144-151 | true exactly when the element is in the slice |
| Scraper.IsSection | resize/aws.go:155-156 | true exactly when the class tokens of the node include "section" and the kind |
| Scraper.FindTitleWrapper | resize/aws.go:153-159 | the walk up from the anchor's parent returns the first ancestor that is a title wrapper, or nil |
| Scraper.FindTableWrapper | resize/aws.go:163-169 | the walk along the next siblings of the title wrapper returns the first sibling that is a table wrapper, or nil |
| Scraper.Locate | resize/aws.go:126-172 | on success the node is a table wrapper; a failure is one of the three locator errors; the no-anchor error is returned exactly when there is no anchor |
| Scraper.NoTitleWrapperAboveAnchor | resize/aws.go:160-162 | with no title wrapper above the anchor, the error is "title-wrapper not found" |
| Scraper.NoTableWrapperAfterHeader | resize/aws.go:170-172 | with no table wrapper after the title wrapper, the error is "table-wrapper not found" |
| Scraper.MapRows | resize/aws.go:180-185 | one result per row |
| Scraper.ParseRows | resize/aws.go:180-185 | one parsed result per row |
| Scraper.RowParser | resize/aws.go:181 | no contract of its own: the call `parseRow(row)` as a function value defined on the nodes of a valid tree, the form in which Scraper.ParseEach receives it |
| Scraper.ParseRowsAt | resize/aws.go:181 | entry `i` is parseRow of row `i` |
| Scraper.Collect | resize/aws.go:179-186 | success exactly when no row failed, with one record per row in order; otherwise the error of the first row that failed and no records |
| Scraper.TableRows | resize/aws.go:173 | the rows under the table wrapper are nodes of the tree |
| Scraper.Catalog | resize/aws.go:126-186 | a locator error is returned as is; fewer than three rows gives "could not find table"; on success there is one record per row after the header |
| Scraper.CollectedRow | resize/aws.go:179-186 | record `i` of a successful loop is the record parseRow gives for row `i` |
| Scraper.FirstFailingRow | resize/aws.go:180-185 | when every row before `i` parses and row `i` does not, the loop returns row `i`'s error |
| Scraper.CatalogOfTable | resize/aws.go:173-186 | once the table is located and has three rows, the result is the loop over all rows but the first |
| Scraper.CatalogRecord | resize/aws.go:178-186 | record `i` of a successful call is parseRow of table row `i + 1`, the header row being skipped |
| Scraper.LocateTable | resize/aws.go:126-172 | the anchor search and the two walks return what Locate specifies |
| Scraper.ParseEach | resize/aws.go:179-186 | the loop filling `types` in place, with early return, gives Collect of the rows parsed in order |
| Scraper.CollectFirstFailure | resize/aws.go:182-184 | the first failed entry's error is the result |
| Scraper.CollectAllSuccess | resize/aws.go:179-186 | with no failed entry the result is the records in order |
| Scraper.InstanceTypes | resize/aws.go:126-187 | the whole method after parsing returns Catalog |

## Left out

- Fetching and parsing the page (`resize/aws.go:110-124`) is left out: the
  HTTP client and its default, the GET, the status check and `html.Parse`.
  These are network I/O and a foreign parser. The parsed tree and its root
  are the model's inputs, and the errors of these steps are not modelled.
- `strconv.ParseFloat` is a parameter of type `string -> Option<Float64>`,
  because floating-point parsing is out of scope. A `float64` is kept as its
  64-bit pattern.
- Error values are the datatype `ScrapeError`. `Message` gives the exact text
  `fmt.Errorf` produces. Go's error interface and wrapping are not modelled.
- The node keeps only the fields the scraper reads. Atoms other than `td` and
  `tr` are folded into two values: `NoAtom`, Go's zero atom, for text nodes
  and unknown tags, and `OtherAtom` for every other known tag. The arena does not require a child's parent
  link to point back to the parent; every result holds without that.
- Scraper.YesNo: lower-cases ASCII letters only, where Go's `strings.ToLower`
  is Unicode. No other rune lower-cases to `y`, `e` or `s`, so the comparison
  with "yes" comes out the same.
- Scraper.FirstFailingRow: stated over the rows the loop receives, not for
  the whole call. `Scraper.CatalogOfTable` shows that those rows are the
  table's rows after the header.
- Go's `int` is 64 bits wide only on 64-bit platforms, and `strconv.Atoi`'s
  range follows the platform. The model assumes 64 bits (`Strconv.MinInt`,
  `Strconv.MaxInt`).
- Strings are sequences of runes, where Go's are byte strings. Bytes that are
  not valid UTF-8 cannot be represented, so how `TrimSpace`, `Fields` and
  `ToLower` treat them is not modelled.
- `resize/resize.go` is not part of this model. It is web plumbing: routing,
  sessions, templates, HTTP rendering and logging.
