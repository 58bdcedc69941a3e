/** Finding the generated lexer and parser classes by name. The class loader is a
    registry of the class names it can load and what each class is. */
module ClassLoading {
  import opened Outcomes
  import opened ParseTree

  /** A loadable class: a generated lexer, a generated parser (with the names of
      its zero-argument rule methods and its vocabulary), or some other class. */
  datatype ClassInfo =
    | LexerClass
    | ParserClass(entryRules: set<string>, vocabulary: Vocabulary)
    | OtherClass

  type Registry = map<string, ClassInfo>

  /** The supertype a loaded class is cast to with asSubclass. */
  datatype Kind = LexerKind | ParserKind

  predicate IsKind(info: ClassInfo, kind: Kind)
  {
    match kind
    case LexerKind => info.LexerClass?
    case ParserKind => info.ParserClass?
  }

  /** What a lookup ends in: the class found, no class of the name(s) tried, or an
      exception that escapes the lookup. */
  datatype LoadResult = Found(name: string) | NotFound | Failed(exception: Exception)

  /** loadClass(name).asSubclass(kind): a missing name is reported as NotFound
      (the ClassNotFoundException the callers catch); a class of the wrong kind
      throws ClassCastException, which no caller catches. */
  function LoadAs(reg: Registry, name: string, kind: Kind): (r: LoadResult)
    ensures r.NotFound? <==> name !in reg
    ensures r.Found? <==> name in reg && IsKind(reg[name], kind)
    ensures r.Found? ==> r.name == name
    ensures r.Failed? ==> r.exception == ClassCast(name)
  {
    if name !in reg then NotFound
    else if IsKind(reg[name], kind) then Found(name)
    else Failed(ClassCast(name))
  }

  /** The conventional name prefix + suffix first; the bare prefix only when no
      class has the conventional name. */
  function LoadWithFallback(reg: Registry, prefix: string, suffix: string, kind: Kind): (r: LoadResult)
    ensures prefix + suffix in reg ==> r == LoadAs(reg, prefix + suffix, kind)
    ensures prefix + suffix !in reg ==> r == LoadAs(reg, prefix, kind)
    ensures r.Found? ==> r.name == prefix + suffix || (prefix + suffix !in reg && r.name == prefix)
    ensures r.NotFound? <==> prefix + suffix !in reg && prefix !in reg
  {
    match LoadAs(reg, prefix + suffix, kind)
    case NotFound => LoadAs(reg, prefix, kind)
    case other => other
  }

  /** loadClass(name).asSubclass(kind) with nothing catching a missing class:
      a missing name escapes as ClassNotFoundException. */
  function LoadOrThrow(reg: Registry, name: string, kind: Kind): (r: LoadResult)
    ensures !r.NotFound?
    ensures r.Found? <==> name in reg && IsKind(reg[name], kind)
    ensures r.Found? ==> r.name == name
    ensures name !in reg ==> r == Failed(ClassNotFound(name))
  {
    match LoadAs(reg, name, kind)
    case NotFound => Failed(ClassNotFound(name))
    case other => other
  }

  /** A grammar compiled as a pure lexer (class Foo, no FooLexer) is still found. */
  lemma PureLexerFallback(reg: Registry, prefix: string)
    requires prefix + "Lexer" !in reg
    requires prefix in reg && reg[prefix].LexerClass?
    ensures LoadWithFallback(reg, prefix, "Lexer", LexerKind) == Found(prefix)
  {
  }
}
