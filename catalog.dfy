/** The instruction catalog of the hover server and the hover text built from
    it. The records are taken as already parsed from the data file. */
module Catalog {
  import opened LspTypes
  import opened Text
  import Tokenizer

  /** One instruction record: its identifier, its name aliases and three
      blocks of documentation lines. */
  datatype Instruction = Instruction(
    id: string,
    names: seq<string>,
    operation: seq<string>,
    symbols: seq<string>,
    summary: seq<string>)

  type InstructionMap = map<string, Instruction>

  /** Every record has a first name; `names[0]` panics otherwise. */
  predicate AllNamed(instructions: seq<Instruction>)
  {
    forall i :: 0 <= i < |instructions| ==> |instructions[i].names| > 0
  }

  /** No record after `i` and before `k` has the same first name as record `i`. */
  predicate IsLastWithNameBefore(instructions: seq<Instruction>, i: nat, k: nat)
    requires AllNamed(instructions) && i < |instructions| && k <= |instructions|
  {
    forall j :: i < j < k ==> instructions[j].names[0] != instructions[i].names[0]
  }

  /** The first names of the first `k` records. */
  function FirstNames(instructions: seq<Instruction>, k: nat): set<string>
    requires AllNamed(instructions) && k <= |instructions|
  {
    set i | 0 <= i < k :: instructions[i].names[0]
  }

  /** `populate_hashmap` after the file is parsed: insert every record under
      its first name, exactly as written, so a later record replaces an
      earlier one with the same first name. */
  method PopulateHashmap(instructions: seq<Instruction>) returns (catalog: InstructionMap)
    requires AllNamed(instructions)
    ensures catalog.Keys == FirstNames(instructions, |instructions|)
    ensures forall i :: 0 <= i < |instructions| && IsLastWithNameBefore(instructions, i, |instructions|) ==>
              catalog[instructions[i].names[0]] == instructions[i]
  {
    catalog := map[];
    var k := 0;
    while k < |instructions|
      invariant k <= |instructions|
      invariant catalog.Keys == FirstNames(instructions, k)
      invariant forall i :: 0 <= i < k && IsLastWithNameBefore(instructions, i, k) ==>
                  catalog[instructions[i].names[0]] == instructions[i]
    {
      var instruction := instructions[k];
      catalog := catalog[instruction.names[0] := instruction];
      assert FirstNames(instructions, k + 1) == FirstNames(instructions, k) + {instruction.names[0]};
      k := k + 1;
    }
  }

  /** `get_instruction`: exact, case-sensitive lookup. */
  function GetInstruction(catalog: InstructionMap, name: string): (r: Option<Instruction>)
    ensures r.Some? <==> name in catalog
    ensures r.Some? ==> r.value == catalog[name]
  {
    if name in catalog then Some(catalog[name]) else None
  }

  /** The hover text of a record: operation lines, a blank line, summary
      lines, a blank line, symbol lines, each block joined by newlines. */
  function HoverText(r: Instruction): string
  {
    Join(r.operation, "\n") + "\n\n" + Join(r.summary, "\n") + "\n\n" + Join(r.symbols, "\n")
  }

  /** A block as the lines it shows: an empty block still shows one empty line. */
  function Shown(lines: seq<string>): seq<string>
  {
    if lines == [] then [""] else lines
  }

  predicate NoNewlines(lines: seq<string>)
  {
    forall k, i :: 0 <= k < |lines| && 0 <= i < |lines[k]| ==> lines[k][i] != '\n'
  }

  /** Splitting the hover text into lines gives back the three blocks, in
      order, separated by one empty line each. */
  lemma HoverTextLines(r: Instruction)
    requires NoNewlines(r.operation) && NoNewlines(r.summary) && NoNewlines(r.symbols)
    ensures Split(HoverText(r), '\n') == Shown(r.operation) + [""] + Shown(r.summary) + [""] + Shown(r.symbols)
  {
    SplitAtBlankLines(Join(r.operation, "\n"), Join(r.summary, "\n"), Join(r.symbols, "\n"));
    ShownLines(r.operation);
    ShownLines(r.summary);
    ShownLines(r.symbols);
  }

  lemma SplitAtBlankLines(a: string, b: string, c: string)
    ensures Split(a + "\n\n" + b + "\n\n" + c, '\n') == Split(a, '\n') + [""] + Split(b, '\n') + [""] + Split(c, '\n')
  {
    var nl := '\n';
    var bc := b + [nl, nl] + c;
    assert a + "\n\n" + b + "\n\n" + c == a + [nl, nl] + bc;
    SplitAtBlankLine(a, bc, nl);
    SplitAtBlankLine(b, c, nl);
  }

  /** Two separators in a row leave one empty piece between their neighbours. */
  lemma SplitAtBlankLine(x: string, y: string, sep: char)
    ensures Split(x + [sep, sep] + y, sep) == Split(x, sep) + [""] + Split(y, sep)
  {
    var t := [sep] + y;
    assert x + [sep, sep] + y == x + [sep] + t;
    SplitAtSeparator(x, t, sep);
    assert t == [] + [sep] + y;
    SplitAtSeparator([], y, sep);
    assert Split([], sep) == [""];
  }

  lemma ShownLines(lines: seq<string>)
    requires NoNewlines(lines)
    ensures Split(Join(lines, "\n"), '\n') == Shown(lines)
  {
    if lines == [] {
    } else {
      SplitJoin(lines, '\n');
    }
  }

  /** The hover text for the word under the cursor. The lookup is unwrapped,
      so the word must be a catalog key. */
  function Hover(catalog: InstructionMap, line: string, col: nat): (text: string)
    requires col <= |line|
    requires Tokenizer.WordAtColumn(line, col) in catalog
    ensures text == HoverText(catalog[Tokenizer.WordAtColumn(line, col)])
  {
    HoverText(GetInstruction(catalog, Tokenizer.WordAtColumn(line, col)).value)
  }

  /** A hover request succeeds when the document exists, has the line, the
      column lies within the line and the word there is a catalog key. */
  predicate CanHover(catalog: InstructionMap, docs: map<Uri, seq<string>>, params: TextDocumentPositionParams)
  {
    var pos := params.position;
    && params.uri in docs
    && pos.line < |docs[params.uri]|
    && pos.character <= |docs[params.uri][pos.line]|
    && Tokenizer.WordAtColumn(docs[params.uri][pos.line], pos.character) in catalog
  }

  /** The hover request handler of the dispatch loop, with the document
      store standing in for the file system. Every `unwrap` and the slice
      become the panic outcome. */
  function HoverOutcome(catalog: InstructionMap, docs: map<Uri, seq<string>>, params: TextDocumentPositionParams): (r: Outcome<string>)
    ensures r.Done? <==> CanHover(catalog, docs, params)
    ensures r.Done? ==>
              var line := docs[params.uri][params.position.line];
              r.value == HoverText(catalog[Tokenizer.WordAtColumn(line, params.position.character)])
  {
    if CanHover(catalog, docs, params) then
      Done(Hover(catalog, docs[params.uri][params.position.line], params.position.character))
    else
      Panicked
  }
}
