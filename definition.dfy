/** The go-to-definition server: its symbol table, the word under the cursor
    and the definition lookup. A document is the sequence of its lines, and
    the document store stands in for the file system. */
module Definition {
  import opened LspTypes
  import opened Text
  import Tokenizer

  /** A definition site: a line's first token and where it stands. */
  datatype Symbol = Symbol(name: string, location: Location)

  datatype SymbolTable = SymbolTable(symbols: seq<Symbol>)

  function LineOf(s: Symbol): nat
  {
    s.location.range.start.line
  }

  /** The symbol line `i` contributes when its first token is `word`: the
      range runs from character 0 to the token's length, whatever whitespace
      precedes the token. */
  function LineSymbol(uri: Uri, i: nat, word: string): Symbol
  {
    Symbol(word, Location(uri, Range(Position(i, 0), Position(i, |word|))))
  }

  /** The line's first whitespace-delimited token is `word`. */
  predicate FirstWordIs(line: string, word: string)
  {
    var ws := Words(line);
    ws != [] && ws[0] == word
  }

  /** The symbols of the first `n` lines, as `SymbolTable::new` pushes them. */
  function SymbolsOf(lines: seq<string>, uri: Uri, n: nat): (symbols: seq<Symbol>)
    requires n <= |lines|
    ensures |symbols| <= n
  {
    if n == 0 then []
    else
      var ws := Words(lines[n - 1]);
      SymbolsOf(lines, uri, n - 1) + (if ws == [] then [] else [LineSymbol(uri, n - 1, ws[0])])
  }

  /** Symbol `s` is the first token of one of the first `n` lines, with its range. */
  predicate IsLineSymbol(lines: seq<string>, uri: Uri, n: nat, s: Symbol)
  {
    var l := LineOf(s);
    l < n && l < |lines| && Words(lines[l]) != [] && s == LineSymbol(uri, l, Words(lines[l])[0])
  }

  /** The symbols stand on strictly increasing lines. */
  predicate InLineOrder(symbols: seq<Symbol>)
  {
    forall k1, k2 :: 0 <= k1 < k2 < |symbols| ==> LineOf(symbols[k1]) < LineOf(symbols[k2])
  }

  /** Every one of the first `n` lines that has a token has a symbol. */
  predicate CoversTokenLines(lines: seq<string>, n: nat, symbols: seq<Symbol>)
    requires n <= |lines|
  {
    forall l :: 0 <= l < n && Words(lines[l]) != [] ==>
      exists k :: 0 <= k < |symbols| && LineOf(symbols[k]) == l
  }

  /** Every entry of the table is the first token of its line, with its range. */
  lemma {:induction false} SymbolsAreLineSymbols(lines: seq<string>, uri: Uri, n: nat)
    requires n <= |lines|
    ensures forall k :: 0 <= k < |SymbolsOf(lines, uri, n)| ==> IsLineSymbol(lines, uri, n, SymbolsOf(lines, uri, n)[k])
  {
    if n > 0 {
      SymbolsAreLineSymbols(lines, uri, n - 1);
      var prev := SymbolsOf(lines, uri, n - 1);
      var all := SymbolsOf(lines, uri, n);
      forall k | 0 <= k < |all| ensures IsLineSymbol(lines, uri, n, all[k]) {
        if k < |prev| {
          assert all[k] == prev[k];
          assert IsLineSymbol(lines, uri, n - 1, prev[k]);
        }
      }
    }
  }

  /** The table lists lines in strictly increasing order. */
  lemma {:induction false} SymbolsInLineOrder(lines: seq<string>, uri: Uri, n: nat)
    requires n <= |lines|
    ensures InLineOrder(SymbolsOf(lines, uri, n))
  {
    if n > 0 {
      SymbolsInLineOrder(lines, uri, n - 1);
      SymbolsAreLineSymbols(lines, uri, n - 1);
      var prev := SymbolsOf(lines, uri, n - 1);
      var all := SymbolsOf(lines, uri, n);
      forall k1, k2 | 0 <= k1 < k2 < |all| ensures LineOf(all[k1]) < LineOf(all[k2]) {
        assert all[k1] == prev[k1];
        assert IsLineSymbol(lines, uri, n - 1, prev[k1]);
        if k2 < |prev| {
          assert all[k2] == prev[k2];
        }
      }
    }
  }

  /** Every line with a token has an entry in the table. */
  lemma {:induction false} SymbolsCoverTokenLines(lines: seq<string>, uri: Uri, n: nat)
    requires n <= |lines|
    ensures CoversTokenLines(lines, n, SymbolsOf(lines, uri, n))
  {
    if n > 0 {
      SymbolsCoverTokenLines(lines, uri, n - 1);
      var prev := SymbolsOf(lines, uri, n - 1);
      var all := SymbolsOf(lines, uri, n);
      forall l | 0 <= l < n && Words(lines[l]) != []
        ensures exists k :: 0 <= k < |all| && LineOf(all[k]) == l
      {
        if l < n - 1 {
          var k :| 0 <= k < |prev| && LineOf(prev[k]) == l;
          assert all[k] == prev[k];
        } else {
          assert LineOf(all[|prev|]) == l;
        }
      }
    }
  }

  /** The table holds one symbol per line with a token, in line order, and
      each is that line's first token with its range. */
  lemma SymbolsOfCharacterized(lines: seq<string>, uri: Uri, n: nat)
    requires n <= |lines|
    ensures forall k :: 0 <= k < |SymbolsOf(lines, uri, n)| ==> IsLineSymbol(lines, uri, n, SymbolsOf(lines, uri, n)[k])
    ensures InLineOrder(SymbolsOf(lines, uri, n))
    ensures CoversTokenLines(lines, n, SymbolsOf(lines, uri, n))
  {
    SymbolsAreLineSymbols(lines, uri, n);
    SymbolsInLineOrder(lines, uri, n);
    SymbolsCoverTokenLines(lines, uri, n);
  }

  /** `SymbolTable::new`: one symbol per line that has a token, all with the
      request's document URI. */
  method NewSymbolTable(lines: seq<string>, params: TextDocumentPositionParams) returns (table: SymbolTable)
    ensures table.symbols == SymbolsOf(lines, params.uri, |lines|)
  {
    var symbols: seq<Symbol> := [];
    var i := 0;
    while i < |lines|
      invariant i <= |lines|
      invariant symbols == SymbolsOf(lines, params.uri, i)
    {
      var words := Words(lines[i]);
      if words != [] {
        symbols := symbols + [LineSymbol(params.uri, i, words[0])];
      }
      i := i + 1;
    }
    table := SymbolTable(symbols);
  }

  /** `get_word_at_cursor`: the `character`-th whitespace token of the line.
      The position's character counts tokens, not columns; both `nth` calls
      are unwrapped, so the line and the token must exist. */
  function GetWordAtCursor(lines: seq<string>, pos: Position): (word: string)
    requires pos.line < |lines| && pos.character < |Words(lines[pos.line])|
    ensures IsWord(word)
  {
    Words(lines[pos.line])[pos.character]
  }

  /** `symbols.iter().find(|s| s.name == word)`: the first symbol named `word`. */
  function FindSymbol(symbols: seq<Symbol>, word: string): (r: Option<Symbol>)
    ensures r.None? <==> forall k :: 0 <= k < |symbols| ==> symbols[k].name != word
    ensures r.Some? ==> exists k :: 0 <= k < |symbols| && symbols[k] == r.value && r.value.name == word &&
                                    forall j :: 0 <= j < k ==> symbols[j].name != word
  {
    if symbols == [] then None
    else if symbols[0].name == word then Some(symbols[0])
    else
      var r := FindSymbol(symbols[1..], word);
      assert r.Some? ==> exists k :: 1 <= k < |symbols| && symbols[k] == r.value && r.value.name == word &&
                                     forall j :: 0 <= j < k ==> symbols[j].name != word by {
        if r.Some? {
          var k :| 0 <= k < |symbols[1..]| && symbols[1..][k] == r.value && r.value.name == word &&
                   forall j :: 0 <= j < k ==> symbols[1..][j].name != word;
          assert symbols[k + 1] == r.value;
        }
      }
      r
  }

  /** Some line's first token is `word`. */
  predicate HasDefinition(lines: seq<string>, word: string)
  {
    exists l :: 0 <= l < |lines| && FirstWordIs(lines[l], word)
  }

  /** Line `l` is the first line whose first token is `word`. */
  predicate IsFirstDefinition(lines: seq<string>, word: string, l: nat)
  {
    && l < |lines|
    && FirstWordIs(lines[l], word)
    && forall m :: 0 <= m < l ==> !FirstWordIs(lines[m], word)
  }

  /** The location of the first symbol named `word` in the document's table:
      the lowest line whose first token is exactly `word`. */
  function FirstDefinition(lines: seq<string>, uri: Uri, word: string): (r: Option<Location>)
    ensures r.None? <==> !HasDefinition(lines, word)
    ensures r.Some? ==> exists l :: IsFirstDefinition(lines, word, l) && r.value == LineSymbol(uri, l, word).location
  {
    var symbols := SymbolsOf(lines, uri, |lines|);
    SymbolsOfCharacterized(lines, uri, |lines|);
    match FindSymbol(symbols, word)
    case None =>
      assert !HasDefinition(lines, word);
      None
    case Some(s) =>
      var k :| 0 <= k < |symbols| && symbols[k] == s && s.name == word &&
               forall j :: 0 <= j < k ==> symbols[j].name != word;
      FirstMatchIsFirstDefinition(lines, uri, word, k);
      Some(s.location)
  }

  /** The index of the entry of a line that has a token. */
  lemma EntryOfLine(lines: seq<string>, uri: Uri, m: nat) returns (k: nat)
    requires m < |lines| && Words(lines[m]) != []
    ensures k < |SymbolsOf(lines, uri, |lines|)|
    ensures LineOf(SymbolsOf(lines, uri, |lines|)[k]) == m
    ensures SymbolsOf(lines, uri, |lines|)[k].name == Words(lines[m])[0]
  {
    var symbols := SymbolsOf(lines, uri, |lines|);
    SymbolsOfCharacterized(lines, uri, |lines|);
    k :| 0 <= k < |symbols| && LineOf(symbols[k]) == m;
    assert IsLineSymbol(lines, uri, |lines|, symbols[k]);
  }

  /** The first symbol named `word` stands on the first line whose first
      token is `word`. */
  lemma FirstMatchIsFirstDefinition(lines: seq<string>, uri: Uri, word: string, k: nat)
    requires k < |SymbolsOf(lines, uri, |lines|)|
    requires SymbolsOf(lines, uri, |lines|)[k].name == word
    requires forall j :: 0 <= j < k ==> SymbolsOf(lines, uri, |lines|)[j].name != word
    ensures IsFirstDefinition(lines, word, LineOf(SymbolsOf(lines, uri, |lines|)[k]))
    ensures SymbolsOf(lines, uri, |lines|)[k].location == LineSymbol(uri, LineOf(SymbolsOf(lines, uri, |lines|)[k]), word).location
  {
    var symbols := SymbolsOf(lines, uri, |lines|);
    SymbolsAreLineSymbols(lines, uri, |lines|);
    var l := LineOf(symbols[k]);
    assert IsLineSymbol(lines, uri, |lines|, symbols[k]);
    forall m | 0 <= m < l
      ensures !FirstWordIs(lines[m], word)
    {
      EarlierLineDoesNotDefine(lines, uri, word, k, m);
    }
  }

  /** A line before the first entry named `word` does not start with `word`. */
  lemma EarlierLineDoesNotDefine(lines: seq<string>, uri: Uri, word: string, k: nat, m: nat)
    requires k < |SymbolsOf(lines, uri, |lines|)|
    requires forall j :: 0 <= j < k ==> SymbolsOf(lines, uri, |lines|)[j].name != word
    requires m < LineOf(SymbolsOf(lines, uri, |lines|)[k])
    ensures m < |lines| ==> !FirstWordIs(lines[m], word)
  {
    if m < |lines| && Words(lines[m]) != [] {
      var all := SymbolsOf(lines, uri, |lines|);
      var k' := EntryOfLine(lines, uri, m);
      SymbolsInLineOrder(lines, uri, |lines|);
      EarlierLineEarlierEntry(all, k', k);
      assert all[k'].name != word;
    }
  }

  /** In a table in line order, an entry on an earlier line comes earlier. */
  lemma EarlierLineEarlierEntry(symbols: seq<Symbol>, k1: nat, k2: nat)
    requires InLineOrder(symbols)
    requires k1 < |symbols| && k2 < |symbols| && LineOf(symbols[k1]) < LineOf(symbols[k2])
    ensures k1 < k2
  {
  }

  /** `text_document_definition` once the file is read: the location of the
      first symbol named exactly like the word at the cursor. Both the word
      lookup and the `find` are unwrapped. */
  function TextDocumentDefinition(lines: seq<string>, params: TextDocumentPositionParams): (r: Option<Location>)
    requires params.position.line < |lines|
    requires params.position.character < |Words(lines[params.position.line])|
    requires HasDefinition(lines, GetWordAtCursor(lines, params.position))
    ensures r.Some?
    ensures var word := GetWordAtCursor(lines, params.position);
            exists l :: IsFirstDefinition(lines, word, l) && r.value == LineSymbol(params.uri, l, word).location
  {
    FirstDefinition(lines, params.uri, GetWordAtCursor(lines, params.position))
  }

  /** A definition request succeeds when the document exists, has the line,
      the line has that many tokens and the token is defined. */
  predicate CanDefine(docs: map<Uri, seq<string>>, params: TextDocumentPositionParams)
  {
    var pos := params.position;
    && params.uri in docs
    && pos.line < |docs[params.uri]|
    && pos.character < |Words(docs[params.uri][pos.line])|
    && HasDefinition(docs[params.uri], GetWordAtCursor(docs[params.uri], pos))
  }

  /** The definition request handler of the dispatch loop. A missing file,
      line, token or symbol is a panic. */
  function DefinitionOutcome(docs: map<Uri, seq<string>>, params: TextDocumentPositionParams): (r: Outcome<Option<Location>>)
    ensures r.Done? <==> CanDefine(docs, params)
    ensures r.Done? ==> r.value == TextDocumentDefinition(docs[params.uri], params)
  {
    if CanDefine(docs, params) then Done(TextDocumentDefinition(docs[params.uri], params)) else Panicked
  }

  /** The corrected resolver: the word under the cursor is taken by column,
      with the hover server's tokenizer, and looked up as a label, with the
      separator `:` appended. A position outside the document or a label
      without a definition gives no location instead of a panic. */
  function DefinitionAtColumn(lines: seq<string>, params: TextDocumentPositionParams): (r: Option<Location>)
    ensures var pos := params.position;
            r.Some? <==> pos.line < |lines| && pos.character <= |lines[pos.line]| &&
                         HasDefinition(lines, Tokenizer.WordAtColumn(lines[pos.line], pos.character) + ":")
    ensures r.Some? ==>
              var target := Tokenizer.WordAtColumn(lines[params.position.line], params.position.character) + ":";
              exists l :: IsFirstDefinition(lines, target, l) && r.value == LineSymbol(params.uri, l, target).location
  {
    var pos := params.position;
    if pos.line < |lines| && pos.character <= |lines[pos.line]| then
      FirstDefinition(lines, params.uri, Tokenizer.WordAtColumn(lines[pos.line], pos.character) + ":")
    else
      None
  }

  /** The example document of the definition server's comment. */
  const ExampleSource: seq<string> := ["L0: mov ax, 0x1234", "    mov bx, 0x5678", "    bnz L0"]

  lemma ExampleWords0()
    ensures FirstWordIs(ExampleSource[0], "L0:")
  {
    var rest := " mov ax, 0x1234";
    assert IsWord("L0:");
    assert ExampleSource[0] == "L0:" + rest;
    WordsOfWordThen("L0:", rest);
  }

  lemma ExampleWords1()
    ensures FirstWordIs(ExampleSource[1], "mov")
  {
    var rest := " bx, 0x5678";
    assert IsWord("mov");
    assert ExampleSource[1] == "    " + ("mov" + rest);
    WordsSkipWhitespace("    ", "mov" + rest);
    WordsOfWordThen("mov", rest);
  }

  lemma ExampleOperand()
    ensures Words(" L0") == ["L0"]
  {
    var l0, space := "L0", " ";
    assert IsWord(l0) && AllWhitespace(space);
    assert space + l0 == " L0" && l0 + "" == l0;
    WordsSkipWhitespace(space, l0);
    WordsOfWordThen(l0, "");
  }

  lemma ExampleBranch()
    ensures Words("bnz L0") == ["bnz", "L0"]
  {
    var bnz, rest := "bnz", " L0";
    assert IsWord(bnz);
    assert bnz + rest == "bnz L0";
    WordsOfWordThen(bnz, rest);
    ExampleOperand();
  }

  lemma ExampleWords2()
    ensures Words(ExampleSource[2]) == ["bnz", "L0"]
  {
    var indent, rest := "    ", "bnz L0";
    assert AllWhitespace(indent);
    assert indent + rest == ExampleSource[2];
    WordsSkipWhitespace(indent, rest);
    ExampleBranch();
  }

  /** No line of the example starts with the bare `L0`. */
  lemma ExampleNoBareLabel()
    ensures !HasDefinition(ExampleSource, "L0")
  {
    ExampleWords0();
    ExampleWords1();
    ExampleWords2();
    forall l | 0 <= l < |ExampleSource| ensures !FirstWordIs(ExampleSource[l], "L0") {
      assert l == 0 || l == 1 || l == 2;
    }
  }

  /** As written, a definition request on the token `L0` of `bnz L0` (token
      index 1 of line 2) panics: no line starts with `L0`, only with `L0:`. */
  lemma ExampleLabelUnmatched(uri: Uri)
    ensures Words(ExampleSource[2]) == ["bnz", "L0"]
    ensures GetWordAtCursor(ExampleSource, Position(2, 1)) == "L0"
    ensures DefinitionOutcome(map[uri := ExampleSource], TextDocumentPositionParams(uri, Position(2, 1))) == Panicked
  {
    ExampleWords2();
    ExampleNoBareLabel();
    assert !CanDefine(map[uri := ExampleSource], TextDocumentPositionParams(uri, Position(2, 1)));
  }

  /** As written, a definition request at the column of `L0` in `bnz L0`
      (character 8 of line 2) panics: the line has only two tokens. */
  lemma ExampleColumnIsNotTokenIndex(uri: Uri)
    ensures |Words(ExampleSource[2])| == 2
    ensures DefinitionOutcome(map[uri := ExampleSource], TextDocumentPositionParams(uri, Position(2, 8))) == Panicked
  {
    ExampleWords2();
  }

  /** At column 8 of `    bnz L0` the tokenizer finds `L0`. */
  lemma ExampleCursorWord()
    ensures Tokenizer.WordAtColumn(ExampleSource[2], 8) == "L0"
  {
    var line := ExampleSource[2];
    assert Tokenizer.IsWordSpan(line, 8, 8, 10);
    Tokenizer.WordSpanIsUnique(line, 8, 8, 10);
  }

  /** The corrected resolver takes the cursor on `L0` of `bnz L0` to the
      label on line 0, as the definition server's comment intends. */
  lemma ExampleLabelResolves(uri: Uri)
    ensures DefinitionAtColumn(ExampleSource, TextDocumentPositionParams(uri, Position(2, 8))) ==
              Some(Location(uri, Range(Position(0, 0), Position(0, 3))))
  {
    ExampleCursorWord();
    assert "L0" + ":" == "L0:";
    ExampleFirstLabel(uri);
  }

  /** The label `L0:` is defined on line 0 of the example. */
  lemma ExampleFirstLabel(uri: Uri)
    ensures FirstDefinition(ExampleSource, uri, "L0:") == Some(LineSymbol(uri, 0, "L0:").location)
  {
    ExampleWords0();
    var r := FirstDefinition(ExampleSource, uri, "L0:");
    assert HasDefinition(ExampleSource, "L0:");
    var l :| IsFirstDefinition(ExampleSource, "L0:", l) && r.value == LineSymbol(uri, l, "L0:").location;
    assert l == 0;
  }
}
