/** The parse tree the generated parser hands to the serializer, the vocabulary
    that names token types, and the normalisation of rule-context class names. */
module ParseTree {

  /** Token-type id to display name, as the generated parser's Vocabulary knows it:
      for each type, the first of its display, literal and symbolic names that
      the generated tables hold. The tables are arrays, so only types from 0 up
      can have an entry. */
  type Vocabulary = map<int, string>

  /** Token.EOF, the type of the end-of-input token. */
  const EOF: int := -1

  /** A terminal node (TerminalNodeImpl, including error nodes) carries its token's
      type and text; a non-terminal (a rule context) carries the simple name of its
      class and its children in left-to-right order. */
  datatype Tree =
    | Terminal(ttype: int, text: string)
    | NonTerminal(cls: string, children: seq<Tree>)

  // ---------------------------------------------------------------------------
  // Display names of token types
  // ---------------------------------------------------------------------------

  predicate IsDigit(c: char) { '0' <= c <= '9' }

  predicate AllDigits(s: string) { forall i :: 0 <= i < |s| ==> IsDigit(s[i]) }

  function DigitChar(d: nat): (c: char)
    requires d < 10
    ensures IsDigit(c) && c as int - '0' as int == d
  {
    ('0' as int + d) as char
  }

  /** The decimal digits of n, most significant first, without leading zeros. */
  function Digits(n: nat): string
    decreases n
  {
    (if n < 10 then "" else Digits(n / 10)) + [DigitChar(n % 10)]
  }

  /** An optional minus sign followed by at least one decimal digit. */
  predicate IsDecimal(s: string)
  {
    if |s| > 0 && s[0] == '-' then |s| > 1 && AllDigits(s[1..]) else |s| > 0 && AllDigits(s)
  }

  /** The form Integer.toString writes: no leading zero, and no "-0". */
  predicate Canonical(s: string)
    requires IsDecimal(s)
  {
    (s[0] == '-' ==> s[1] != '0') && (s[0] == '0' ==> |s| == 1)
  }

  /** The number a string of decimal digits denotes. */
  function DigitsValue(s: string): nat
    requires AllDigits(s)
  {
    if s == [] then 0 else DigitsValue(s[..|s| - 1]) * 10 + (s[|s| - 1] as int - '0' as int)
  }

  /** Integer.parseInt on the numerals IsDecimal admits. */
  function DecimalValue(s: string): int
    requires IsDecimal(s)
  {
    if s[0] == '-' then 0 - DigitsValue(s[1..]) as int else DigitsValue(s)
  }

  lemma {:induction false} DigitsRoundTrip(n: nat)
    ensures |Digits(n)| > 0 && AllDigits(Digits(n))
    ensures DigitsValue(Digits(n)) == n
    decreases n
  {
    var s := Digits(n);
    var d := DigitChar(n % 10);
    var prefix := if n < 10 then "" else Digits(n / 10);
    assert s == prefix + [d];
    assert s[..|s| - 1] == prefix;
    assert s[|s| - 1] == d;
    if n >= 10 {
      DigitsRoundTrip(n / 10);
      assert DigitsValue(prefix) == n / 10;
    } else {
      assert DigitsValue(prefix) == 0;
    }
    assert AllDigits(s) by {
      forall i | 0 <= i < |s| ensures IsDigit(s[i]) {
        if i < |prefix| { assert s[i] == prefix[i]; }
      }
    }
    calc {
      DigitsValue(s);
      DigitsValue(prefix) * 10 + (d as int - '0' as int);
      (n / 10) * 10 + n % 10;
      n;
    }
  }

  /** Only zero is written with a leading zero digit. */
  lemma {:induction false} DigitsNoLeadingZero(n: nat)
    ensures |Digits(n)| > 0
    ensures Digits(n)[0] == '0' ==> n == 0 && Digits(n) == "0"
    decreases n
  {
    if n >= 10 {
      DigitsNoLeadingZero(n / 10);
      assert Digits(n)[0] == Digits(n / 10)[0];
    }
  }

  /** Integer.toString: a canonical numeral that reads back as n. */
  function DecimalString(n: int): (s: string)
    ensures IsDecimal(s) && Canonical(s) && DecimalValue(s) == n
  {
    if n < 0 then
      DigitsRoundTrip(-n);
      DigitsNoLeadingZero(-n);
      var s := "-" + Digits(-n);
      assert s[1..] == Digits(-n);
      s
    else
      DigitsRoundTrip(n);
      DigitsNoLeadingZero(n);
      assert IsDigit(Digits(n)[0]);
      Digits(n)
  }

  /** Vocabulary.getDisplayName: the name the vocabulary gives a type from 0 up;
      otherwise "EOF" for the end-of-input type and the type's decimal numeral
      for any other type. */
  function DisplayName(vocab: Vocabulary, ttype: int): (name: string)
    ensures 0 <= ttype && ttype in vocab ==> name == vocab[ttype]
    ensures ttype == EOF ==> name == "EOF"
    ensures !(0 <= ttype && ttype in vocab) && ttype != EOF ==> IsDecimal(name) && Canonical(name) && DecimalValue(name) == ttype
  {
    if 0 <= ttype && ttype in vocab then vocab[ttype]
    else if ttype == EOF then "EOF"
    else DecimalString(ttype)
  }

  /** Two different token types the vocabulary does not name are never shown
      alike: each fallback name identifies its type. */
  lemma UnnamedTypesDisplayApart(vocab: Vocabulary, t1: int, t2: int)
    requires t1 != t2
    requires !(0 <= t1 && t1 in vocab) && !(0 <= t2 && t2 in vocab)
    ensures DisplayName(vocab, t1) != DisplayName(vocab, t2)
  {
    if t1 == EOF {
      assert !IsDigit("EOF"[0]);
      assert !IsDecimal("EOF");
    } else if t2 == EOF {
      assert !IsDigit("EOF"[0]);
      assert !IsDecimal("EOF");
    }
  }

  // ---------------------------------------------------------------------------
  // Rule names
  // ---------------------------------------------------------------------------

  const ContextSuffix: string := "Context"

  predicate EndsWith(s: string, suffix: string)
  {
    |suffix| <= |s| && s[|s| - |suffix|..] == suffix
  }

  /** replaceAll("Context$", ""): removes one trailing "Context", if there is one. */
  function StripContext(name: string): (r: string)
    ensures EndsWith(name, ContextSuffix) ==> name == r + ContextSuffix
    ensures !EndsWith(name, ContextSuffix) ==> r == name
  {
    if EndsWith(name, ContextSuffix) then name[..|name| - |ContextSuffix|] else name
  }

  /** Character.toLowerCase on the ASCII letters. */
  function LowerChar(c: char): (l: char)
    ensures 'A' <= c <= 'Z' ==> 'a' <= l <= 'z' && l as int == c as int + 32
    ensures !('A' <= c <= 'Z') ==> l == c
  {
    if 'A' <= c <= 'Z' then (c as int + 32) as char else c
  }

  /** toLowerCase(name.charAt(0)) + name.substring(1). */
  function LowerFirst(s: string): (r: string)
    requires |s| > 0
    ensures |r| == |s| && r[0] == LowerChar(s[0]) && r[1..] == s[1..]
  {
    [LowerChar(s[0])] + s[1..]
  }

  /** charAt(0) succeeds only when something is left after stripping, which is
      the case for every class name except "" and "Context" itself. */
  predicate HasRuleName(cls: string)
    ensures HasRuleName(cls) <==> cls != "" && cls != ContextSuffix
  {
    |StripContext(cls)| > 0
  }

  /** The name a non-terminal is serialized under: the class name, first
      character lowered, without one trailing "Context". */
  function RuleName(cls: string): (r: string)
    requires HasRuleName(cls)
    ensures |r| > 0 && r[0] == LowerChar(cls[0])
    ensures EndsWith(cls, ContextSuffix) ==> r[1..] + ContextSuffix == cls[1..]
    ensures !EndsWith(cls, ContextSuffix) ==> r[1..] == cls[1..]
  {
    var name := StripContext(cls);
    assert name[0] == cls[0];
    assert EndsWith(cls, ContextSuffix) ==> name[1..] + ContextSuffix == cls[1..];
    LowerFirst(name)
  }

  /** Some rule context in the tree has class name c. */
  predicate HasClass(t: Tree, c: string)
    decreases t
  {
    match t
    case Terminal(_, _) => false
    case NonTerminal(cls, children) =>
      cls == c || exists i :: 0 <= i < |children| && HasClass(children[i], c)
  }

  /** Every rule context in the tree has a rule name: none is of a class named
      "" or "Context". */
  predicate WellNamed(t: Tree)
    ensures WellNamed(t) <==> !HasClass(t, "") && !HasClass(t, ContextSuffix)
    decreases t
  {
    match t
    case Terminal(_, _) => true
    case NonTerminal(cls, children) =>
      HasRuleName(cls) && forall i :: 0 <= i < |children| ==> WellNamed(children[i])
  }

  /** The name of a class with a "Context" suffix is the rest, first letter lowered;
      only one suffix goes, so a name that itself ends in "Context" keeps it. */
  lemma {:induction false} RuleNameOfContextClass(base: string)
    requires |base| > 0
    ensures HasRuleName(base + ContextSuffix)
    ensures RuleName(base + ContextSuffix) == LowerFirst(base)
  {
    var name := base + ContextSuffix;
    assert name[|name| - |ContextSuffix|..] == ContextSuffix;
    assert name[..|name| - |ContextSuffix|] == base;
  }

  /** A class name without the suffix is only lowered in its first character. */
  lemma RuleNameOfPlainClass(cls: string)
    requires |cls| > 0 && !EndsWith(cls, ContextSuffix)
    ensures HasRuleName(cls)
    ensures |RuleName(cls)| == |cls|
    ensures RuleName(cls)[0] == LowerChar(cls[0]) && RuleName(cls)[1..] == cls[1..]
  {
  }

  /** A class named exactly "Context" has no rule name. */
  lemma BareContextHasNoRuleName()
    ensures !HasRuleName(ContextSuffix)
  {
    assert ContextSuffix[|ContextSuffix| - |ContextSuffix|..] == ContextSuffix;
  }

  /** Only one suffix goes: ContextContext becomes context. */
  lemma DoubleContextExample()
    ensures HasRuleName("ContextContext") && RuleName("ContextContext") == "context"
  {
    assert "ContextContext" == ContextSuffix + ContextSuffix;
    RuleNameOfContextClass(ContextSuffix);
    assert LowerFirst(ContextSuffix) == "context";
  }

  /** StatementContext becomes statement. */
  lemma StatementContextExample()
    ensures RuleName("StatementContext") == "statement"
  {
    assert "Statement" + ContextSuffix == "StatementContext";
    RuleNameOfContextClass("Statement");
  }

  /** A "Context" that is not at the end of the name stays. */
  lemma InnerContextKept()
    ensures RuleName("ContextFoo") == "contextFoo"
  {
    assert !EndsWith("ContextFoo", ContextSuffix) by {
      assert "ContextFoo"[3..][0] != ContextSuffix[0];
    }
  }
}
