/// Concrete declarations and what the parser model yields for each, stated
/// as lemmas: the crate's own test input and the edge cases of the grammar
/// as written. Each fact
/// about a single literal has its own small lemma, and the examples only
/// combine them.
module ParserTests {
  import opened Options
  import opened Text
  import opened Parser

  /** The test's indentation is whitespace. */
  lemma IndentIsSpace()
    ensures AllSpace("\n        ")
  {
    assert forall c :: c in "\n        " ==> IsSpace(c);
    AllSpaceIffMembers("\n        ");
  }

  /** "greet" holds no "(". */
  lemma GreetLacksParen()
    ensures Lacks('(', "greet")
  {
    assert '(' !in "greet";
    NotInLacks('(', "greet");
  }

  /** "greet " holds no "(". */
  lemma SpacedGreetLacksParen()
    ensures Lacks('(', "greet ")
  {
    assert '(' !in "greet ";
    NotInLacks('(', "greet ");
  }

  /** "void" holds no ";". */
  lemma VoidLacksSemicolon()
    ensures Lacks(';', "void")
  {
    assert ';' !in "void";
    NotInLacks(';', "void");
  }

  /** The test input from the name on.
      Proof step only: a fact about string literals, not a property of
      the parser. */
  lemma GreetTail()
    ensures "greet" + ("():" + (" " + ("void" + ";\n\n    "))) == "greet(): void;\n\n    "
  {
  }

  /** The test input up to the name.
      Proof step only: a fact about string literals, not a property of
      the parser. */
  lemma GreetHead()
    ensures "\n        " + ("export" + (" " + ("function" + (" " + "greet(): void;\n\n    "))))
            == "\n        export function greet(): void;\n\n    "
  {
  }

  /** The test input is the declaration built from its pieces. */
  lemma GreetText()
    ensures Declaration("\n        ", " ", " ", "greet", " ", "void", ";\n\n    ")
            == "\n        export function greet(): void;\n\n    "
  {
    GreetTail();
    GreetHead();
  }

  /** The declaration in the crate's own test parses to the name "greet",
      with no arguments and no return type, leaving ";" and the trailing
      blank lines. */
  lemma GreetExample()
    ensures FunctionDeclaration("\n        export function greet(): void;\n\n    ")
            == Ok(";\n\n    ", Function("greet", None, None))
  {
    IndentIsSpace();
    GreetLacksParen();
    VoidLacksSemicolon();
    GreetText();
    DeclarationComplete("\n        ", " ", " ", "greet", " ", "void", ";\n\n    ");
  }

  /** A declaration written without any whitespace, from its pieces.
      Proof step only: a fact about string literals, not a property of
      the parser. */
  lemma UnseparatedText()
    ensures Declaration("", "", "", "greet", "", "void", ";") == "exportfunctiongreet():void;"
  {
  }

  /** `ws!` allows but does not require whitespace, so the keywords and the
      name may run together. */
  lemma KeywordsNeedNoSeparator()
    ensures FunctionDeclaration("exportfunctiongreet():void;") == Ok(";", Function("greet", None, None))
  {
    GreetLacksParen();
    VoidLacksSemicolon();
    UnseparatedText();
    DeclarationComplete("", "", "", "greet", "", "void", ";");
  }

  /** A declaration with a blank between the name and "(", from its pieces.
      Proof step only: a fact about string literals, not a property of
      the parser. */
  lemma SpacedNameText()
    ensures Declaration("", " ", " ", "greet ", " ", "void", ";") == "export function greet (): void;"
  {
  }

  /** The name is all text up to "(", trailing blanks included. */
  lemma NameKeepsTrailingSpace()
    ensures FunctionDeclaration("export function greet (): void;") == Ok(";", Function("greet ", None, None))
  {
    SpacedGreetLacksParen();
    VoidLacksSemicolon();
    SpacedNameText();
    DeclarationComplete("", " ", " ", "greet ", " ", "void", ";");
  }

  /** The text before the first "(" of the typed declaration holds no "(". */
  lemma TypedHeadLacksParen()
    ensures Lacks('(', "export function greet")
  {
    assert '(' !in "export function greet";
    NotInLacks('(', "export function greet");
  }

  /** The typed declaration split at its first "(".
      Proof step only: a fact about string literals, not a property of
      the parser. */
  lemma TypedText()
    ensures "export function greet" + "(person: string): void;"
            == "export function greet(person: string): void;"
  {
  }

  /** When the first "(" is followed by anything but ")", the call shape
      does not hold. */
  lemma CallAtBlocked(a: string, x: string)
    requires Lacks('(', a)
    requires |x| >= 2 && x[0] == '(' && x[1] != ')'
    ensures !CallAt(a + x)
  {
    IndexOfAfter('(', a, x);
    assert (a + x)[|a| + 1] == x[1];
  }

  /** The typed declaration from its first "(": "p" follows, not ")".
      Proof step only: a fact about string literals, not a property of
      the parser. */
  lemma TypedTailShape()
    ensures var x := "(person: string): void;"; |x| >= 2 && x[0] == '(' && x[1] != ')'
  {
  }

  /** A declaration with a typed argument is rejected outright: its first
      "(" is followed by "p", not ")". */
  lemma TypedArgumentRejected()
    ensures FunctionDeclaration("export function greet(person: string): void;") == Fail
  {
    TypedHeadLacksParen();
    TypedTailShape();
    CallAtBlocked("export function greet", "(person: string): void;");
    CallShapeRequired("export function greet" + "(person: string): void;");
    TypedText();
  }
}
