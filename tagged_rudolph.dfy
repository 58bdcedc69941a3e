/** The stand-alone Java harness (java/Rudolph): grammar name and start rule, a
    bare-name fallback for the lexer only, and the type/name/value tagged output. */
module TaggedRudolph {
  import opened Outcomes
  import opened ParseTree
  import opened ClassLoading
  import opened Serializer

  class Rudolph {
    /** The context class loader. */
    const loader: Registry
    const grammarName: string
    const startRuleName: string

    // Static fields in the source, shared process-wide; here they belong to the
    // one harness. Instances are identified by the class they belong to.
    var lexer: Option<string>
    var parserClass: Option<string>
    var parser: Option<string>
    var vocabulary: Option<Vocabulary>

    /** Bound components are of the right kind, the parser is an instance of the
        bound parser class, and the vocabulary is that parser's. */
    ghost predicate Valid()
      reads this
    {
      && (lexer.Some? ==> lexer.value in loader && loader[lexer.value].LexerClass?)
      && parser == parserClass
      && (parser.Some? ==>
            && parser.value in loader && loader[parser.value].ParserClass?
            && vocabulary == Some(loader[parser.value].vocabulary))
      && (parser.None? ==> vocabulary.None?)
    }

    /** Where the lexer lookup of initialize ends: grammar name + "Lexer", else
        the bare grammar name when no class has the longer name. */
    function LexerLookup(): (r: LoadResult)
      ensures r.Found? <==>
        if grammarName + "Lexer" in loader then loader[grammarName + "Lexer"].LexerClass?
        else grammarName in loader && loader[grammarName].LexerClass?
      ensures r.Found? ==> r.name == if grammarName + "Lexer" in loader then grammarName + "Lexer" else grammarName
      ensures r.NotFound? <==> grammarName + "Lexer" !in loader && grammarName !in loader
      ensures r.Failed? ==> r.exception.ClassCast?
    {
      LoadWithFallback(loader, grammarName, "Lexer", LexerKind)
    }

    /** Where the parser lookup of initialize ends: no fallback, and a missing
        class escapes as ClassNotFoundException. */
    function ParserLookup(): (r: LoadResult)
      ensures r.Found? <==> grammarName + "Parser" in loader && loader[grammarName + "Parser"].ParserClass?
      ensures r.Found? ==> r.name == grammarName + "Parser"
      ensures grammarName + "Parser" !in loader ==> r == Failed(ClassNotFound(grammarName + "Parser"))
      ensures grammarName + "Parser" in loader && !loader[grammarName + "Parser"].ParserClass? ==>
                r == Failed(ClassCast(grammarName + "Parser"))
    {
      LoadOrThrow(loader, grammarName + "Parser", ParserKind)
    }

    /** The zero-argument rule methods of the bound parser class. */
    function EntryRules(): set<string>
      reads this
      requires Valid() && parserClass.Some?
    {
      loader[parserClass.value].entryRules
    }

    /** new Rudolph(args): args holds the grammar name, then the start rule. */
    constructor (args: seq<string>, loader: Registry)
      requires |args| >= 2
      ensures this.loader == loader
      ensures grammarName == args[0] && startRuleName == args[1]
      ensures Valid()
      ensures lexer == if LexerLookup().Found? then Some(LexerLookup().name) else None
      ensures parser == if LexerLookup().Found? && ParserLookup().Found? then Some(ParserLookup().name) else None
    {
      this.loader := loader;
      grammarName := args[0];
      startRuleName := args[1];
      lexer, parserClass, parser, vocabulary := None, None, None, None;
      new;
      // What initialize returns is dropped; what it throws is only reported.
      var status := Initialize();
    }

    /** Binds the lexer, then the parser and its vocabulary. Returns "" when both
        are bound and "ERROR" only when no lexer is found; a missing parser class
        throws, leaving the lexer bound and the parser unbound. */
    method Initialize() returns (r: Returned<string>)
      requires Valid()
      modifies this
      ensures Valid()
      ensures LexerLookup().NotFound? ==> r == Value("ERROR")
      ensures LexerLookup().Failed? ==> r == Raised(LexerLookup().exception)
      ensures !LexerLookup().Found? ==>
        lexer == old(lexer) && parserClass == old(parserClass) && parser == old(parser) && vocabulary == old(vocabulary)
      ensures LexerLookup().Found? ==> lexer == Some(LexerLookup().name)
      ensures LexerLookup().Found? && ParserLookup().Failed? ==>
        && r == Raised(ParserLookup().exception)
        && parserClass == old(parserClass) && parser == old(parser) && vocabulary == old(vocabulary)
      ensures LexerLookup().Found? && ParserLookup().Found? ==>
        && r == Value("")
        && parserClass == Some(ParserLookup().name) && parser == parserClass
        && vocabulary == Some(loader[ParserLookup().name].vocabulary)
    {
      var lexerName := grammarName + "Lexer";
      var lexerClass := LoadAs(loader, lexerName, LexerKind);
      if lexerClass.NotFound? {
        // might be a pure lexer grammar, without the Lexer suffix
        lexerName := grammarName;
        lexerClass := LoadAs(loader, lexerName, LexerKind);
        if lexerClass.NotFound? {
          return Value("ERROR");
        }
      }
      if lexerClass.Failed? {
        return Raised(lexerClass.exception);
      }
      lexer := Some(lexerClass.name);

      var parserName := grammarName + "Parser";
      var found := LoadAs(loader, parserName, ParserKind);
      if found.NotFound? {
        return Raised(ClassNotFound(parserName));
      }
      if found.Failed? {
        return Raised(found.exception);
      }
      parserClass := Some(found.name);
      parser := parserClass;
      vocabulary := Some(loader[found.name].vocabulary);
      return Value("");
    }

    /** process(textInput): invoke(rule, text) is the tree that the bound parser's
        rule method of that name builds from the tokens of text. A start rule
        without such a method gives "ERROR"; an unbound lexer or parser throws. */
    method Process(textInput: string, invoke: (string, string) -> Tree) returns (r: Returned<Reply>)
      requires Valid()
      ensures lexer.None? || parser.None? ==> r == Raised(NullPointer)
      ensures lexer.Some? && parser.Some? && startRuleName !in EntryRules() ==> r == Value(ErrorSentinel)
      ensures lexer.Some? && parser.Some? && startRuleName in EntryRules() ==>
        var tree := invoke(startRuleName, textInput);
        r == if WellNamed(tree) then Value(Document(Encode(Tagged, vocabulary.value, tree)))
             else Raised(StringIndexOutOfBounds)
    {
      if lexer.None? || parser.None? {
        // lexer.setInputStream or parser.setBuildParseTree on null
        return Raised(NullPointer);
      }
      if startRuleName !in loader[parserClass.value].entryRules {
        // getMethod throws NoSuchMethodException, which is reported and mapped to "ERROR"
        return Value(ErrorSentinel);
      }
      var tree := invoke(startRuleName, textInput);
      var encoded := Traverse(Tagged, vocabulary.value, tree);
      match encoded
      case Raised(e) => r := Raised(e);
      case Value(doc) => r := Value(Document(doc));
    }
  }
}
