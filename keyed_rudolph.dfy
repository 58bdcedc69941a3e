/** The harness of the R package (r/rudolph/java): start rule, lexer prefix and
    an optional parser prefix, both lookups with a bare-name fallback, and the
    rule-name-keyed output. */
module KeyedRudolph {
  import opened Outcomes
  import opened ParseTree
  import opened ClassLoading
  import opened Serializer

  class Rudolph {
    /** The context class loader. */
    const loader: Registry
    const startRuleName: string
    const lexerPrefix: string
    const parserPrefix: string

    // Static fields in the source, shared process-wide; here they belong to the
    // one harness. Instances are identified by the class they belong to.
    var lexer: Option<string>
    var parserClass: Option<string>
    var parser: Option<string>
    var vocabulary: Option<Vocabulary>

    /** Bound components are of the right kind, the parser is an instance of the
        bound parser class, and the vocabulary is that parser's. */
    ghost predicate Valid()
      reads this
    {
      && (lexer.Some? ==> lexer.value in loader && loader[lexer.value].LexerClass?)
      && parser == parserClass
      && (parser.Some? ==>
            && parser.value in loader && loader[parser.value].ParserClass?
            && vocabulary == Some(loader[parser.value].vocabulary))
      && (parser.None? ==> vocabulary.None?)
    }

    /** Where the lexer lookup of initialize ends: prefix + "Lexer", else the
        bare prefix when no class has the longer name. */
    function LexerLookup(): (r: LoadResult)
      ensures r.Found? <==>
        if lexerPrefix + "Lexer" in loader then loader[lexerPrefix + "Lexer"].LexerClass?
        else lexerPrefix in loader && loader[lexerPrefix].LexerClass?
      ensures r.Found? ==> r.name == if lexerPrefix + "Lexer" in loader then lexerPrefix + "Lexer" else lexerPrefix
      ensures r.NotFound? <==> lexerPrefix + "Lexer" !in loader && lexerPrefix !in loader
      ensures r.Failed? ==> r.exception.ClassCast?
    {
      LoadWithFallback(loader, lexerPrefix, "Lexer", LexerKind)
    }

    /** Where the parser lookup of initialize ends: prefix + "Parser", else the
        bare prefix when no class has the longer name. */
    function ParserLookup(): (r: LoadResult)
      ensures r.Found? <==>
        if parserPrefix + "Parser" in loader then loader[parserPrefix + "Parser"].ParserClass?
        else parserPrefix in loader && loader[parserPrefix].ParserClass?
      ensures r.Found? ==> r.name == if parserPrefix + "Parser" in loader then parserPrefix + "Parser" else parserPrefix
      ensures r.NotFound? <==> parserPrefix + "Parser" !in loader && parserPrefix !in loader
      ensures r.Failed? ==> r.exception.ClassCast?
    {
      LoadWithFallback(loader, parserPrefix, "Parser", ParserKind)
    }

    /** The zero-argument rule methods of the bound parser class. */
    function EntryRules(): set<string>
      reads this
      requires Valid() && parserClass.Some?
    {
      loader[parserClass.value].entryRules
    }

    /** new Rudolph(args): args holds the start rule, the lexer prefix and,
        optionally, the parser prefix, which otherwise is the lexer prefix. */
    constructor (args: seq<string>, loader: Registry)
      requires |args| >= 2
      ensures this.loader == loader
      ensures startRuleName == args[0] && lexerPrefix == args[1]
      ensures parserPrefix == if |args| > 2 then args[2] else args[1]
      ensures Valid()
      ensures lexer == if LexerLookup().Found? then Some(LexerLookup().name) else None
      ensures parser == if LexerLookup().Found? && ParserLookup().Found? then Some(ParserLookup().name) else None
    {
      this.loader := loader;
      startRuleName := args[0];
      lexerPrefix := args[1];
      parserPrefix := if |args| > 2 then args[2] else args[1];
      lexer, parserClass, parser, vocabulary := None, None, None, None;
      new;
      // What initialize returns is dropped; what it throws is only reported.
      var status := Initialize();
    }

    /** Binds the lexer, then the parser and its vocabulary. Returns "" when both
        are bound and "ERROR" when a lookup finds no class under either name; the
        lexer stays bound when only the parser lookup fails. */
    method Initialize() returns (r: Returned<string>)
      requires Valid()
      modifies this
      ensures Valid()
      ensures LexerLookup().NotFound? ==> r == Value("ERROR")
      ensures LexerLookup().Failed? ==> r == Raised(LexerLookup().exception)
      ensures !LexerLookup().Found? ==>
        lexer == old(lexer) && parserClass == old(parserClass) && parser == old(parser) && vocabulary == old(vocabulary)
      ensures LexerLookup().Found? ==> lexer == Some(LexerLookup().name)
      ensures LexerLookup().Found? && ParserLookup().NotFound? ==> r == Value("ERROR")
      ensures LexerLookup().Found? && ParserLookup().Failed? ==> r == Raised(ParserLookup().exception)
      ensures LexerLookup().Found? && !ParserLookup().Found? ==>
        parserClass == old(parserClass) && parser == old(parser) && vocabulary == old(vocabulary)
      ensures LexerLookup().Found? && ParserLookup().Found? ==>
        && r == Value("")
        && parserClass == Some(ParserLookup().name) && parser == parserClass
        && vocabulary == Some(loader[ParserLookup().name].vocabulary)
    {
      var lexerName := lexerPrefix + "Lexer";
      var lexerClass := LoadAs(loader, lexerName, LexerKind);
      if lexerClass.NotFound? {
        // might be a pure lexer grammar, without the Lexer suffix
        lexerName := lexerPrefix;
        lexerClass := LoadAs(loader, lexerName, LexerKind);
        if lexerClass.NotFound? {
          return Value("ERROR");
        }
      }
      if lexerClass.Failed? {
        return Raised(lexerClass.exception);
      }
      lexer := Some(lexerClass.name);

      var parserName := parserPrefix + "Parser";
      var found := LoadAs(loader, parserName, ParserKind);
      if found.NotFound? {
        // the full parser name might be given as the prefix
        parserName := parserPrefix;
        found := LoadAs(loader, parserName, ParserKind);
        if found.NotFound? {
          return Value("ERROR");
        }
      }
      if found.Failed? {
        return Raised(found.exception);
      }
      parserClass := Some(found.name);
      parser := parserClass;
      vocabulary := Some(loader[found.name].vocabulary);
      return Value("");
    }

    /** process(textInput): invoke(rule, text) is the tree that the bound parser's
        rule method of that name builds from the tokens of text. A start rule
        without such a method gives "ERROR"; an unbound lexer or parser throws. */
    method Process(textInput: string, invoke: (string, string) -> Tree) returns (r: Returned<Reply>)
      requires Valid()
      ensures lexer.None? || parser.None? ==> r == Raised(NullPointer)
      ensures lexer.Some? && parser.Some? && startRuleName !in EntryRules() ==> r == Value(ErrorSentinel)
      ensures lexer.Some? && parser.Some? && startRuleName in EntryRules() ==>
        var tree := invoke(startRuleName, textInput);
        r == if WellNamed(tree) then Value(Document(Encode(Keyed, vocabulary.value, tree)))
             else Raised(StringIndexOutOfBounds)
    {
      if lexer.None? || parser.None? {
        // lexer.setInputStream or parser.setBuildParseTree on null
        return Raised(NullPointer);
      }
      if startRuleName !in loader[parserClass.value].entryRules {
        // getMethod throws NoSuchMethodException, which is reported and mapped to "ERROR"
        return Value(ErrorSentinel);
      }
      var tree := invoke(startRuleName, textInput);
      var encoded := Traverse(Keyed, vocabulary.value, tree);
      match encoded
      case Raised(e) => r := Raised(e);
      case Value(doc) => r := Value(Document(doc));
    }
  }
}
