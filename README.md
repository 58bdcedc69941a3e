# Rudolph harness, modelled in Dafny

Rudolph is a grammar-agnostic driver for ANTLR-generated recognisers. It is given the
name of a grammar (or a lexer prefix and a parser prefix) and the name of a start rule.
It finds the generated lexer and parser classes by name, with a fallback from the
conventional `<Name>Lexer` / `<Name>Parser` to the bare `<Name>`. It invokes the start
rule's zero-argument method on the parser. It then walks the resulting parse tree into
insertion-ordered maps and lists, which are rendered as JSON. The sentinel string
`"ERROR"` is returned when the start rule has no method.

The repository holds two variants of the driver, and both are modelled:

- the R package's harness (`r/rudolph/.../Rudolph.java`, module `KeyedRudolph`):
  - it takes a start rule, a lexer prefix and an optional parser prefix;
  - both lookups fall back to the bare name;
  - a terminal becomes `{type: <display name>, text: <token text>}`;
  - a non-terminal becomes `{<rule name>: [children]}`.
- the stand-alone Java harness (`java/Rudolph/.../Rudolph.java`, module `TaggedRudolph`):
  - it takes a grammar name and a start rule;
  - only the lexer lookup falls back; a missing parser class throws;
  - a terminal becomes `{type: "lexer", name, value}`;
  - a non-terminal becomes `{type: "parser", name, value: [children]}`.

Modules:

- `Outcomes`: `Option`, the Java exceptions that reach the harness, and `Returned<T>`, which is either the value a call returns or the exception it throws.
- `JsonValue`: the `Json` datatype (`Str`, `Arr`, `Obj` with ordered entries). Also `Updated`, which is `LinkedHashMap.put` on entries, and the `LinkedMap` class the traversal fills in place.
- `ParseTree`: the parse tree (`Terminal(ttype, text)` / `NonTerminal(cls, children)`), the vocabulary and `Vocabulary.getDisplayName`, and the rule-name normalisation. The normalisation drops one trailing `Context` and lower-cases the first character.
- `ClassLoading`: the class loader is a registry from class names to what each class is. It holds the lookups `LoadAs` (`loadClass(...).asSubclass(...)`), `LoadWithFallback` and `LoadOrThrow`.
- `Serializer`: the encoding shared by both variants, selected by `Encoding = Keyed | Tagged`.
  - `Encode` is the specification.
  - `Decode` and `Erase` give the round trip that shows what the encoding keeps.
  - `Traverse` is the imperative traversal: one `LinkedMap` per node, and a loop that appends the children.
- `KeyedRudolph.Rudolph`, `TaggedRudolph.Rudolph`: the harness objects. Each has a constructor, `Initialize` and `Process`.

## Model

| member | source | states |
|---|---|---|
| `JsonValue.Updated` | java/Rudolph/src/org/rudolph/rudolph/Rudolph.java:129-131 | After `put(k, v)` the map yields `v` for `k` and is unchanged for every other key. A new key is appended to the key order; a key already present keeps its position. |
| `JsonValue.UpdatedAppendsNewKey` | r/rudolph/java/Rudolph/src/org/rudolph/rudolph/Rudolph.java:159-160 | Putting a key that is not yet present appends exactly one entry at the end. |
| `JsonValue.UpdatedReplacesLast` | r/rudolph/java/Rudolph/src/org/rudolph/rudolph/Rudolph.java:163-171 | Putting again the key of the last entry replaces its value in place. This is how the children list, already in the map while it is filled, ends up in the map. |
| `JsonValue.PutsInOrder3` | java/Rudolph/src/org/rudolph/rudolph/Rudolph.java:137-139 | Three puts of distinct keys into an empty map leave exactly those entries, in call order. |
| `JsonValue.UpdatedKeepsKeysDistinct` | r/rudolph/java/Rudolph/src/org/rudolph/rudolph/Rudolph.java:150-151 | A map never holds a key twice. |
| `JsonValue.LinkedMap.constructor` | r/rudolph/java/Rudolph/src/org/rudolph/rudolph/Rudolph.java:150 | A new `LinkedHashMap` is empty, and so holds no key twice. |
| `JsonValue.LinkedMap.Put` | r/rudolph/java/Rudolph/src/org/rudolph/rudolph/Rudolph.java:159-160 | `put` changes the map's entries to `Updated(old entries, k, v)` and keeps every key held once. |
| `ParseTree.DigitsRoundTrip` | r/rudolph/java/Rudolph/src/org/rudolph/rudolph/Rudolph.java:159 | The decimal digits of a natural number are non-empty, all digits, and read back as the number. |
| `ParseTree.DecimalString` | r/rudolph/java/Rudolph/src/org/rudolph/rudolph/Rudolph.java:159 | The decimal rendering of a token type (`Integer.toString`) is a well-formed numeral, an optional minus sign and at least one digit. It is canonical: no leading zero and no `-0`. It reads back as that type. |
| `ParseTree.DigitsNoLeadingZero` | r/rudolph/java/Rudolph/src/org/rudolph/rudolph/Rudolph.java:159 | The digits of a natural number start with `0` only for zero itself, which is written `0`. |
| `ParseTree.DisplayName` | java/Rudolph/src/org/rudolph/rudolph/Rudolph.java:130 | `getDisplayName(type)` gives the vocabulary's name for a type from 0 up that has one. For the end-of-input type -1 it gives `"EOF"`. For any other type it gives the canonical numeral that reads back as the type. |
| `ParseTree.UnnamedTypesDisplayApart` | java/Rudolph/src/org/rudolph/rudolph/Rudolph.java:130 | Two different token types that the vocabulary does not name are never displayed alike, `EOF` included. |
| `ParseTree.StripContext` | r/rudolph/java/Rudolph/src/org/rudolph/rudolph/Rudolph.java:164 | A name ending in `Context` loses exactly that one suffix. Any other name is returned unchanged. |
| `ParseTree.LowerChar` | java/Rudolph/src/org/rudolph/rudolph/Rudolph.java:138 | An ASCII upper-case letter becomes its lower-case letter. Every other character, non-ASCII capitals included, is left alone. |
| `ParseTree.LowerFirst` | r/rudolph/java/Rudolph/src/org/rudolph/rudolph/Rudolph.java:166 | The result has the same length. Its first character is lower-cased and all the others are unchanged. |
| `ParseTree.HasRuleName` | r/rudolph/java/Rudolph/src/org/rudolph/rudolph/Rudolph.java:164-166 | `charAt(0)` on the stripped name succeeds exactly when the class name is neither empty nor exactly `Context`. |
| `ParseTree.RuleName` | java/Rudolph/src/org/rudolph/rudolph/Rudolph.java:135-138 | The serialized name of a rule context is non-empty. Its first character is the class name's first character lowered. The rest is the rest of the class name, without the trailing `Context` when there is one. |
| `ParseTree.RuleNameOfContextClass` | r/rudolph/java/Rudolph/src/org/rudolph/rudolph/Rudolph.java:164-166 | For any non-empty `base`, `base + "Context"` has a rule name, namely `base` with its first character lowered. So a `base` that itself ends in `Context` keeps that ending. |
| `ParseTree.RuleNameOfPlainClass` | java/Rudolph/src/org/rudolph/rudolph/Rudolph.java:135-138 | A non-empty class name without the suffix only has its first character lowered. |
| `ParseTree.BareContextHasNoRuleName` | r/rudolph/java/Rudolph/src/org/rudolph/rudolph/Rudolph.java:164-166 | A class named exactly `Context` strips to the empty name, so `charAt(0)` cannot succeed. |
| `ParseTree.DoubleContextExample` | r/rudolph/java/Rudolph/src/org/rudolph/rudolph/Rudolph.java:164-166 | Only one suffix is removed: `ContextContext` becomes `context`. |
| `ParseTree.StatementContextExample` | java/Rudolph/src/org/rudolph/rudolph/Rudolph.java:135-138 | `StatementContext` is serialized as `statement`. |
| `ParseTree.InnerContextKept` | r/rudolph/java/Rudolph/src/org/rudolph/rudolph/Rudolph.java:164 | A `Context` that is not at the end stays: `ContextFoo` becomes `contextFoo`. |
| `ParseTree.WellNamed` | r/rudolph/java/Rudolph/src/org/rudolph/rudolph/Rudolph.java:155-174 | A traversal reaches no `charAt(0)` failure exactly when no rule context anywhere in the tree has a class named `""` or `Context`. |
| `ClassLoading.LoadAs` | r/rudolph/java/Rudolph/src/org/rudolph/rudolph/Rudolph.java:54-57 | A lookup finds the class exactly when the name is registered with the right kind. A missing name is `NotFound`. A class of the wrong kind throws `ClassCastException`, which the `ClassNotFoundException` handler does not catch. |
| `ClassLoading.LoadWithFallback` | r/rudolph/java/Rudolph/src/org/rudolph/rudolph/Rudolph.java:51-70 | `prefix + suffix` is tried first. The bare prefix is consulted only when no class has the conventional name. The result is `NotFound` exactly when neither name is registered. |
| `ClassLoading.LoadOrThrow` | java/Rudolph/src/org/rudolph/rudolph/Rudolph.java:66-67 | There is no fallback. A missing class escapes as `ClassNotFoundException` and is never `NotFound`. |
| `ClassLoading.PureLexerFallback` | java/Rudolph/src/org/rudolph/rudolph/Rudolph.java:51-56 | A lexer compiled as `Foo`, with no `FooLexer`, is found under prefix `Foo`. |
| `KeyedRudolph.Rudolph.LexerLookup` | r/rudolph/java/Rudolph/src/org/rudolph/rudolph/Rudolph.java:51-70 | The lexer is `<prefix>Lexer` when that class exists, else the bare prefix. The lookup finds a class exactly when the name it settles on is a lexer. It is `NotFound` exactly when neither name exists. Any other failure is a `ClassCastException`. |
| `KeyedRudolph.Rudolph.ParserLookup` | r/rudolph/java/Rudolph/src/org/rudolph/rudolph/Rudolph.java:77-94 | The parser is `<prefix>Parser` when that class exists, else the bare prefix. The lookup finds a class exactly when the name it settles on is a parser. It is `NotFound` exactly when neither name exists. Any other failure is a `ClassCastException`. |
| `TaggedRudolph.Rudolph.LexerLookup` | java/Rudolph/src/org/rudolph/rudolph/Rudolph.java:45-61 | The lexer is `<grammar>Lexer` when that class exists, else the bare grammar name. It is `NotFound` exactly when neither exists. Any other failure is a `ClassCastException`. |
| `TaggedRudolph.Rudolph.ParserLookup` | java/Rudolph/src/org/rudolph/rudolph/Rudolph.java:66-67 | The parser is found only as `<grammar>Parser`. A missing class gives `ClassNotFoundException` for that name, and a class that is not a parser gives `ClassCastException`. |
| `Serializer.LeafObject` | java/Rudolph/src/org/rudolph/rudolph/Rudolph.java:126-131 | Definition of a terminal's map: `{type: display name, text: token text}` (keyed) or `{type: "lexer", name: display name, value: token text}` (tagged). `LeafPuts` proves the put calls build it. |
| `Serializer.RuleObject` | java/Rudolph/src/org/rudolph/rudolph/Rudolph.java:134-139 | Definition of a non-terminal's map: `{rule name: [children]}` (keyed) or `{type: "parser", name: rule name, value: [children]}` (tagged). `RulePuts` and `RefillChildren` prove the put calls build it. |
| `Serializer.LeafPuts` | java/Rudolph/src/org/rudolph/rudolph/Rudolph.java:126-131 | The put calls for a terminal, on an empty map, leave exactly `type`, `text` (keyed) or `type`="lexer", `name`, `value` (tagged), in call order, with no children entry. |
| `Serializer.RulePuts` | java/Rudolph/src/org/rudolph/rudolph/Rudolph.java:134-139 | The put calls for a non-terminal, on an empty map, leave exactly one entry under the rule name (keyed) or `type`="parser", `name`, `value` (tagged), in call order. |
| `Serializer.RefillChildren` | r/rudolph/java/Rudolph/src/org/rudolph/rudolph/Rudolph.java:163-172 | Re-putting the filled children list over the empty one put before the loop gives the node's final map, with the key order unchanged. |
| `Serializer.Encode` | r/rudolph/java/Rudolph/src/org/rudolph/rudolph/Rudolph.java:149-174 | Definition of `toMap`: every tree becomes a map, which is the terminal's leaf map or the rule map around the encodings of the children in order. It is defined for trees in which every rule name is non-empty. `Traverse` and both `Process` methods are proved against it. |
| `Serializer.EncodeKeys` | r/rudolph/java/Rudolph/src/org/rudolph/rudolph/Rudolph.java:149-174 | Every node encodes to a map. In the tagged encoding its keys are `type`, `name`, `value`. In the keyed encoding a terminal has keys `type`, `text` and a non-terminal has the single key of its normalised rule name. |
| `Serializer.ChildrenOfEncoding` | r/rudolph/java/Rudolph/src/org/rudolph/rudolph/Rudolph.java:168-172 | A terminal's map has no children list. A non-terminal's list has one entry per child, and entry i is the encoding of child i, so siblings are never reordered. |
| `Serializer.EncodeNonTerminal` | java/Rudolph/src/org/rudolph/rudolph/Rudolph.java:141-145 | A non-terminal encodes to its rule map around the children's encodings, in order. |
| `Serializer.EncodeThreeTerminals` | java/Rudolph/src/org/rudolph/rudolph/Rudolph.java:141-145 | A rule context with three terminal children encodes to its rule map around the three leaf maps, in order. |
| `Serializer.TaggedKeysEverywhere` | java/Rudolph/src/org/rudolph/rudolph/Rudolph.java:125-147 | In the tagged encoding every map at every depth, terminal or not, has exactly the keys `type`, `name`, `value`, in that order. |
| `Serializer.Erase` | r/rudolph/java/Rudolph/src/org/rudolph/rudolph/Rudolph.java:155-174 | The information the output carries keeps each token text unchanged and each child count. |
| `Serializer.DecodeEncode` | java/Rudolph/src/org/rudolph/rudolph/Rudolph.java:125-147 | Decoding an encoded tree returns its shape, in both encodings. The shape is the display names, the token texts unchanged, the normalised rule names, and the children in order. |
| `Serializer.EncodeDeterminesShape` | r/rudolph/java/Rudolph/src/org/rudolph/rudolph/Rudolph.java:155-174 | Two trees with the same output have the same shape. So siblings whose shapes differ cannot be swapped without changing the output. |
| `Serializer.AddContextName` | r/rudolph/java/Rudolph/src/org/rudolph/rudolph/Rudolph.java:164-166 | `AddContext` is serialized as `add`. |
| `Serializer.TaggedAddExample` | java/Rudolph/src/org/rudolph/rudolph/Rudolph.java:125-147 | Rule `add: INT '+' INT` on `2+3`, under any vocabulary that names token types 1 and 2 `INT` and `'+'`, gives a `parser` node `add` with the three `lexer` nodes `INT`/`2`, `'+'`/`+`, `INT`/`3` in input order. |
| `Serializer.PutTerminal` | r/rudolph/java/Rudolph/src/org/rudolph/rudolph/Rudolph.java:156-160 | The put calls for a terminal leave the fresh map equal to the terminal's map. |
| `Serializer.PutRule` | java/Rudolph/src/org/rudolph/rudolph/Rudolph.java:134-139 | The put calls for a non-terminal, made while its list is still empty, leave the map of the node with no children yet. |
| `Serializer.Traverse` | r/rudolph/java/Rudolph/src/org/rudolph/rudolph/Rudolph.java:149-174 | The in-place traversal, with its loop over the children, returns exactly `Encode` of the tree. When some rule name strips to empty, it throws `StringIndexOutOfBoundsException`. |
| `Serializer.TraverseChildren` | r/rudolph/java/Rudolph/src/org/rudolph/rudolph/Rudolph.java:168-172 | The loop over a non-terminal's children returns one map per child, in order, each the encoding of that child. When some rule name below is empty, it throws `StringIndexOutOfBoundsException` instead. |
| `KeyedRudolph.Rudolph.constructor` | r/rudolph/java/Rudolph/src/org/rudolph/rudolph/Rudolph.java:31-48 | The start rule is `args[0]` and the lexer prefix is `args[1]`. The parser prefix is `args[2]` when given, otherwise the lexer prefix. Whatever `initialize` returns or throws is swallowed, and the bound state is what the two lookups give. |
| `KeyedRudolph.Rudolph.Initialize` | r/rudolph/java/Rudolph/src/org/rudolph/rudolph/Rudolph.java:50-104 | If no lexer is found under either name, the result is `"ERROR"` before any parser is bound. Otherwise the lexer is bound first. If no parser is found under either name, the result is `"ERROR"`. If both are found, the parser, its class and its vocabulary are bound and the result is `""`. A wrong-kind class throws. |
| `KeyedRudolph.Rudolph.Process` | r/rudolph/java/Rudolph/src/org/rudolph/rudolph/Rudolph.java:116-139 | An unbound lexer or parser throws `NullPointerException`. A start rule without a zero-argument method gives exactly `"ERROR"`. Otherwise the result is the keyed encoding of the tree the rule builds, or `StringIndexOutOfBoundsException` when some rule name is empty. |
| `TaggedRudolph.Rudolph.constructor` | java/Rudolph/src/org/rudolph/rudolph/Rudolph.java:30-40 | The grammar name is `args[0]` and the start rule is `args[1]`. The exception a missing parser class raises is swallowed and leaves the parser unbound. |
| `TaggedRudolph.Rudolph.Initialize` | java/Rudolph/src/org/rudolph/rudolph/Rudolph.java:42-74 | The lexer is looked up as `<grammar>Lexer`, then as the bare name; if neither exists the result is `"ERROR"`. The parser is looked up only as `<grammar>Parser`, and its absence throws `ClassNotFoundException` with the lexer already bound. On success the vocabulary is the parser's and the result is `""`. |
| `TaggedRudolph.Rudolph.Process` | java/Rudolph/src/org/rudolph/rudolph/Rudolph.java:86-109 | An unbound lexer or parser throws. An unknown start rule gives exactly `"ERROR"`. Otherwise the result is the tagged encoding of the tree the rule builds, or `StringIndexOutOfBoundsException` when some rule name is empty. |

## Left out

- Lexing and parsing are not modelled: `setInputStream`, `CommonTokenStream.fill`, `setBuildParseTree`, and the rule method's own work. `Process` takes `invoke(rule, text)`, the tree the named rule method builds from the tokens of the text. Exceptions thrown inside the rule method are not modelled.
- Reflection is reduced to names:
  - `getConstructor`/`newInstance` are taken to succeed for generated classes;
  - `getMethod` is taken to find only the parser's zero-argument rule methods (`entryRules`), not other inherited public zero-argument methods;
  - the cast of the rule method's result is not modelled.
- Rendering to text with Gson is not modelled: `toJson`, the pretty-print flag, and HTML escaping being off. The model stops at the `Json` value.
- Console output is not modelled: the `System.err` messages, the `user.dir` line, and the error listeners installed on the lexer and parser (`RConsoleErrorListener`).
- The static lexer, parser, parser-class and vocabulary fields are shared by every instance in one process. Here they are fields of one harness object, starting unbound. Interference between several instances is not modelled.
- The children list is put into the map before the loop fills it, and the map holds the same list object. This aliasing is modelled by a second `put` of the filled list, which `LinkedHashMap` applies in place. In the same way, each child's map is added to the list before the child is traversed into it. The model appends the finished map after the child's traversal returns. The two orders differ only when a traversal throws, and then the exception escapes either way, so the partial list is never observed.
- `ParseTree.LowerChar`: lowers only the ASCII letters `A`-`Z`. `Character.toLowerCase` also lowers non-ASCII upper-case letters.
- `ParseTree.DisplayName`: ANTLR's `VocabularyImpl` is not part of this model. Its display, literal and symbolic name arrays are merged into one map from token type to the first name they hold. The fallbacks are the ones `VocabularyImpl.getDisplayName` applies: `"EOF"` for type -1, then `Integer.toString`.
- The regular expression `Context$` would also match before a final line terminator. Class names contain none, so the model strips only a suffix at the very end.
- The constructors require at least two arguments. The source indexes `args[0]` and `args[1]` unchecked.
- java/RudolphElf/src/org/rudolph/elf/Wunorse.java (the grammar compiler entry point) is not part of this model.
