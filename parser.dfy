/// The hand-written nom parser of src/parser.rs. It recognises one
/// `export function NAME(): RET;` declaration and returns a `Function`
/// record with the unconsumed rest of the input.
///
/// The nom macros become combinators over strings: `SkipSpace` for the
/// separator that `ws!` puts around its sub-parser, `Tag` for `tag!` and
/// `TakeUntil` for `take_until!`; `ws!(p)` is `p` applied after
/// `SkipSpace`, followed by `SkipSpaceAfter`; `do_parse!` sequencing becomes
/// nested matches that stop at the first failure.
module Parser {
  import opened Options
  import opened Text

  /** The parsed record. `args` and `returnType` stay optional because the
      parser fills neither of them in. */
  datatype Function = Function(name: string, args: Option<seq<string>>, returnType: Option<string>)

  /** What a parser returns: the rest of the input and the value, or a
      failure (nom's `Error` and `Incomplete` are one case here). */
  datatype ParseResult<+T> = Ok(rest: string, value: T) | Fail

  /** Whether the keyword test accepts `s`: only the exact word "function". */
  function IsFunction(s: string): (b: bool)
    ensures b <==> s == "function"
  {
    match s
    case "function" => true
    case _ => false
  }

  /** The separator characters `ws!` skips: space, tab, carriage return, line feed. */
  predicate IsSpace(c: char) {
    c == ' ' || c == '\t' || c == '\r' || c == '\n'
  }

  /** Every character of `w` is a separator. */
  predicate AllSpace(w: string) {
    w == [] || (IsSpace(w[0]) && AllSpace(w[1..]))
  }

  /** `AllSpace` is the recursive reading of "every member is a separator". */
  lemma {:induction false} AllSpaceIffMembers(w: string)
    ensures AllSpace(w) <==> forall c :: c in w ==> IsSpace(c)
  {
    if w != [] {
      assert forall c :: c in w <==> c == w[0] || c in w[1..];
      AllSpaceIffMembers(w[1..]);
    }
  }

  /** A run of separators holds no other character. */
  lemma {:induction false} SpaceRunLacks(c: char, w: string)
    requires AllSpace(w) && !IsSpace(c)
    ensures Lacks(c, w)
  {
    if w != [] {
      SpaceRunLacks(c, w[1..]);
    }
  }

  /** The length of the longest all-whitespace prefix of `s`. */
  function SpaceRun(s: string): (n: nat)
    ensures n <= |s|
    ensures AllSpace(s[..n])
    ensures n == |s| || !IsSpace(s[n])
  {
    if s != [] && IsSpace(s[0]) then
      var n := SpaceRun(s[1..]);
      assert s[..n + 1][1..] == s[1..][..n];
      n + 1
    else 0
  }

  /** Drops the longest all-whitespace prefix of `s`: what every `ws!`
      skips before and after its sub-parser. The result is the suffix of
      `s` of its own length; what is dropped is whitespace only, and what
      is kept is empty or starts with a non-separator. */
  function SkipSpace(s: string): (r: string)
    ensures |r| <= |s| && r <= s[|s| - |r|..]
    ensures AllSpace(s[..|s| - |r|])
    ensures r == [] || !IsSpace(r[0])
  {
    s[SpaceRun(s)..]
  }

  /** Matches the literal `t` at the start of `s` and consumes exactly it. */
  function Tag(t: string, s: string): (r: ParseResult<string>)
    ensures r.Ok? <==> t <= s
    ensures r.Ok? ==> r.value == t && s == t + r.rest
  {
    if t <= s then Ok(s[|t|..], t) else Fail
  }

  /** Takes everything before the first `d`, leaving `d` unconsumed; fails
      when `s` holds no `d`. */
  function TakeUntil(d: char, s: string): (r: ParseResult<string>)
    ensures r.Ok? <==> !Lacks(d, s)
    ensures r.Ok? ==> r.value == s[..IndexOf(d, s)] && r.rest == s[IndexOf(d, s)..]
  {
    if s == [] then Fail
    else if s[0] == d then Ok(s, [])
    else
      match TakeUntil(d, s[1..])
      case Fail => Fail
      case Ok(rest, taken) =>
        assert [s[0]] + taken == s[..IndexOf(d, s)];
        Ok(rest, [s[0]] + taken)
  }

  /** The second half of `ws!(p)`: after `p` has run on `SkipSpace(s)`,
      skip the whitespace that follows what it consumed. It fails exactly
      when `p` did, keeps `p`'s value, and leaves a suffix of `p`'s rest
      that starts with a non-separator, having dropped whitespace only. */
  function SkipSpaceAfter<T>(p: ParseResult<T>): (r: ParseResult<T>)
    ensures r.Ok? <==> p.Ok?
    ensures r.Ok? ==> r.value == p.value && |r.rest| <= |p.rest|
    ensures r.Ok? ==> r.rest <= p.rest[|p.rest| - |r.rest|..]
    ensures r.Ok? ==> AllSpace(p.rest[..|p.rest| - |r.rest|])
    ensures r.Ok? ==> r.rest == [] || !IsSpace(r.rest[0])
  {
    match p
    case Fail => Fail
    case Ok(rest, v) => Ok(SkipSpace(rest), v)
  }

  /** The argument list: the literal "(" and then ")" with nothing between;
      it never yields arguments. */
  function ParseArgs(s: string): (r: ParseResult<Option<seq<string>>>)
    ensures r.Ok? <==> |s| >= 2 && s[0] == '(' && s[1] == ')'
    ensures r.Ok? ==> r.rest == s[2..] && r.value == None
  {
    match Tag("(", s)
    case Fail => Fail
    case Ok(afterOpen, _) =>
      match Tag(")", afterOpen)
      case Fail => Fail
      case Ok(afterClose, _) => Ok(afterClose, None)
  }

  /** Skipping whitespace is the identity on text that starts with something else. */
  lemma SkipSpaceStops(s: string)
    requires s != [] && !IsSpace(s[0])
    ensures SkipSpace(s) == s
  {
  }

  /** Searching for a non-separator after the leading whitespace finds
      the same character as searching the whole text. */
  lemma SkipSpaceIndex(c: char, s: string)
    requires !IsSpace(c)
    ensures IndexOf(c, s) == SpaceRun(s) + IndexOf(c, SkipSpace(s))
    ensures s[IndexOf(c, s)..] == SkipSpace(s)[IndexOf(c, SkipSpace(s))..]
  {
    var n := SpaceRun(s);
    assert s == s[..n] + s[n..];
    SpaceRunLacks(c, s[..n]);
    IndexOfAfter(c, s[..n], s[n..]);
  }

  /** The return-type scan succeeds exactly when the input holds a ";",
      and then stops at the first ";" of the original input, where the
      trailing whitespace skip has nothing to skip. */
  lemma ReturnTypeScan(s: string)
    ensures TakeUntil(';', SkipSpace(s)).Ok? <==> !Lacks(';', s)
    ensures !Lacks(';', s) ==>
      var rest := TakeUntil(';', SkipSpace(s)).rest;
      rest == s[IndexOf(';', s)..] && SkipSpace(rest) == rest
  {
    SkipSpaceIndex(';', s);
    if !Lacks(';', s) {
      SkipSpaceStops(TakeUntil(';', SkipSpace(s)).rest);
    }
  }

  /** Skipping leading whitespace and then the return-type text up to the
      first ";", which is left in place. The token is read and discarded:
      "void" and every other token give `None`. */
  function ParseReturnType(s: string): (r: ParseResult<Option<string>>)
    ensures r.Ok? <==> !Lacks(';', s)
    ensures r.Ok? ==> r.rest == s[IndexOf(';', s)..] && r.value == None
  {
    ReturnTypeScan(s);
    match SkipSpaceAfter(TakeUntil(';', SkipSpace(s)))
    case Fail => Fail
    case Ok(rest, token) =>
      Ok(rest, match token
               case "void" => None
               case _ => None)
  }

  /** One declaration: "export", "function", the name up to the first "(",
      the empty argument list, ":" right after ")", and the return type up
      to the first ";", which stays in the rest. */
  function FunctionDeclaration(s: string): (r: ParseResult<Function>)
    ensures r.Ok? ==> r.value.args == None && r.value.returnType == None
    ensures r.Ok? ==> r.rest != [] && r.rest[0] == ';'
  {
    match SkipSpaceAfter(Tag("export", SkipSpace(s)))
    case Fail => Fail
    case Ok(afterExport, _) =>
      match SkipSpaceAfter(Tag("function", SkipSpace(afterExport)))
      case Fail => Fail
      case Ok(afterKeyword, _) =>
        match SkipSpaceAfter(TakeUntil('(', SkipSpace(afterKeyword)))
        case Fail => Fail
        case Ok(afterName, name) =>
          match ParseArgs(afterName)
          case Fail => Fail
          case Ok(afterArgs, args) =>
            match Tag(":", afterArgs)
            case Fail => Fail
            case Ok(afterColon, _) =>
              match ParseReturnType(afterColon)
              case Fail => Fail
              case Ok(rest, returnType) => Ok(rest, Function(name, args, returnType))
  }

  /** The text of a declaration built from its parts: leading whitespace,
      the two keywords with the whitespace after each, the name, the empty
      argument list and colon, whitespace, the return-type token and the
      rest of the input. */
  function Declaration(lead: string, gap: string, pad: string, name: string,
                       pad2: string, token: string, rest: string): string
  {
    lead + ("export" + (gap + ("function" + (pad + (name + ("():" + (pad2 + (token + rest))))))))
  }

  /** The parts form a declaration the parser reads back as they are: the
      whitespace runs are maximal, the name holds no "(", the token no ";",
      and the rest starts with the terminating ";". */
  predicate WellFormed(lead: string, gap: string, pad: string, name: string,
                       pad2: string, token: string, rest: string)
  {
    AllSpace(lead) && AllSpace(gap) && AllSpace(pad) && AllSpace(pad2) &&
    Lacks('(', name) && (name == [] || !IsSpace(name[0])) &&
    Lacks(';', token) && (token == [] || !IsSpace(token[0])) &&
    rest != [] && rest[0] == ';'
  }

  /** Skipping a whitespace run that ends before a non-space lands exactly there. */
  lemma {:induction false} SkipSpaceOver(w: string, t: string)
    requires AllSpace(w)
    requires t == [] || !IsSpace(t[0])
    ensures SkipSpace(w + t) == t
  {
    if w == [] {
      assert w + t == t;
    } else {
      assert (w + t)[0] == w[0] && (w + t)[1..] == w[1..] + t;
      SkipSpaceOver(w[1..], t);
    }
  }

  /** `ws!(tag!(kw))` on the keyword, a whitespace run and text that does
      not start with whitespace: it consumes the keyword and the run. */
  lemma KeywordStep(kw: string, w: string, u: string)
    requires kw != [] && !IsSpace(kw[0])
    requires AllSpace(w) && (u == [] || !IsSpace(u[0]))
    ensures SkipSpaceAfter(Tag(kw, SkipSpace(kw + (w + u)))) == Ok(u, kw)
  {
    assert (kw + (w + u))[0] == kw[0];
    SkipSpaceStops(kw + (w + u));
    assert (kw + (w + u))[|kw|..] == w + u;
    SkipSpaceOver(w, u);
  }

  /** The empty argument list and the colon after it. */
  lemma ArgsAndColonStep(afterColon: string)
    ensures ParseArgs("():" + afterColon) == Ok(":" + afterColon, None)
    ensures Tag(":", ":" + afterColon) == Ok(afterColon, ":")
  {
    assert ("():" + afterColon)[2..] == ":" + afterColon;
    assert (":" + afterColon)[1..] == afterColon;
  }

  /** The `do_parse!` chain: when each step yields what the next one reads,
      the declaration is the name with the results of the two `None` steps. */
  lemma DeclarationSteps(s: string, afterExport: string, afterKeyword: string, name: string,
                         afterName: string, afterArgs: string, afterColon: string, rest: string)
    requires SkipSpaceAfter(Tag("export", SkipSpace(s))) == Ok(afterExport, "export")
    requires SkipSpaceAfter(Tag("function", SkipSpace(afterExport))) == Ok(afterKeyword, "function")
    requires SkipSpaceAfter(TakeUntil('(', SkipSpace(afterKeyword))) == Ok(afterName, name)
    requires ParseArgs(afterName) == Ok(afterArgs, None)
    requires Tag(":", afterArgs) == Ok(afterColon, ":")
    requires ParseReturnType(afterColon) == Ok(rest, None)
    ensures FunctionDeclaration(s) == Ok(rest, Function(name, None, None))
  {
  }

  /** `take_until!` over a piece free of the delimiter followed by the
      delimiter: it takes exactly that piece. */
  lemma {:induction false} TakeUntilAt(d: char, a: string, b: string)
    requires Lacks(d, a) && b != [] && b[0] == d
    ensures TakeUntil(d, a + b) == Ok(b, a)
  {
    if a == [] {
      assert a + b == b;
    } else {
      assert a[0] != d;
      assert (a + b)[0] == a[0] && (a + b)[1..] == a[1..] + b;
      TakeUntilAt(d, a[1..], b);
      assert [a[0]] + a[1..] == a;
    }
  }

  /** Skipping whitespace leaves a piece that starts with a non-space, or is
      empty and followed by a non-space, in place. */
  lemma SkipSpaceAtWord(a: string, b: string)
    requires a == [] || !IsSpace(a[0])
    requires b != [] && !IsSpace(b[0])
    ensures SkipSpace(a + b) == a + b
  {
    if a == [] {
      assert a + b == b;
      SkipSpaceStops(b);
    } else {
      assert (a + b)[0] == a[0];
      SkipSpaceStops(a + b);
    }
  }

  /** `ws!(take_until!("("))` on a name free of "(" followed by "(": it
      yields the name and stops at the "(". */
  lemma NameStep(name: string, u: string)
    requires Lacks('(', name) && (name == [] || !IsSpace(name[0]))
    requires u != [] && u[0] == '('
    ensures SkipSpaceAfter(TakeUntil('(', SkipSpace(name + u))) == Ok(u, name)
  {
    SkipSpaceAtWord(name, u);
    TakeUntilAt('(', name, u);
    SkipSpaceStops(u);
  }

  /** The return-type step on whitespace, a token free of ";" and a rest
      starting with ";": it stops right at that ";". */
  lemma ReturnTypeStep(pad2: string, token: string, rest: string)
    requires AllSpace(pad2) && Lacks(';', token) && (token == [] || !IsSpace(token[0]))
    requires rest != [] && rest[0] == ';'
    ensures ParseReturnType(pad2 + (token + rest)) == Ok(rest, None)
  {
    SkipSpaceAtWord(token, rest);
    SkipSpaceOver(pad2, token + rest);
    TakeUntilAt(';', token, rest);
    SkipSpaceStops(rest);
  }

  /** Every well-formed declaration parses, yielding its name and the rest. */
  lemma DeclarationComplete(lead: string, gap: string, pad: string, name: string,
                            pad2: string, token: string, rest: string)
    requires WellFormed(lead, gap, pad, name, pad2, token, rest)
    ensures FunctionDeclaration(Declaration(lead, gap, pad, name, pad2, token, rest))
            == Ok(rest, Function(name, None, None))
  {
    var afterColon := pad2 + (token + rest);
    var afterName := "():" + afterColon;
    var afterKeyword := name + afterName;
    var afterExport := "function" + (pad + afterKeyword);
    var s := lead + ("export" + (gap + afterExport));

    assert ("export" + (gap + afterExport))[0] == 'e';
    SkipSpaceOver(lead, "export" + (gap + afterExport));
    assert afterExport[0] == 'f';
    KeywordStep("export", gap, afterExport);
    SkipSpaceAtWord(name, afterName);
    KeywordStep("function", pad, afterKeyword);
    NameStep(name, afterName);
    ArgsAndColonStep(afterColon);
    ReturnTypeStep(pad2, token, rest);
    DeclarationSteps(s, afterExport, afterKeyword, name, afterName, ":" + afterColon, afterColon, rest);
  }

  /** What `take_until!` returns splits its input at the first delimiter. */
  lemma TakeUntilSplit(d: char, s: string)
    requires TakeUntil(d, s).Ok?
    ensures var r := TakeUntil(d, s);
      s == r.value + r.rest && Lacks(d, r.value) && r.rest != [] && r.rest[0] == d
  {
    var i := IndexOf(d, s);
    PrefixLacks(d, s);
    assert s == s[..i] + s[i..];
  }

  /** Skipping whitespace splits the input into the run and what follows. */
  lemma SkipSpaceSplit(s: string)
    ensures s == s[..SpaceRun(s)] + SkipSpace(s) && AllSpace(s[..SpaceRun(s)])
    ensures SkipSpace(s) == [] || !IsSpace(SkipSpace(s)[0])
  {
  }

  /** A successful `ws!(tag!(kw))` on text that does not start with
      whitespace: the text is the keyword, a whitespace run, and the rest. */
  lemma KeywordInv(kw: string, x: string, after: string) returns (w: string)
    requires x == [] || !IsSpace(x[0])
    requires SkipSpaceAfter(Tag(kw, SkipSpace(x))) == Ok(after, kw)
    ensures x == kw + (w + after) && AllSpace(w) && (after == [] || !IsSpace(after[0]))
  {
    var u := x[|kw|..];
    SkipSpaceSplit(u);
    w := u[..SpaceRun(u)];
  }

  /** A successful `ws!(take_until!("("))` on text that does not start with
      whitespace: the text is the name, free of "(", and then the "(". */
  lemma NameInv(x: string, name: string, afterName: string)
    requires x == [] || !IsSpace(x[0])
    requires SkipSpaceAfter(TakeUntil('(', SkipSpace(x))) == Ok(afterName, name)
    ensures x == name + afterName && Lacks('(', name) && (name == [] || !IsSpace(name[0]))
    ensures afterName != [] && afterName[0] == '('
  {
    assert SkipSpace(x) == x;
    TakeUntilSplit('(', x);
    SkipSpaceStops(TakeUntil('(', x).rest);
  }

  /** A successful return-type step: whitespace, a token free of ";" that
      does not start with whitespace, and the rest from the ";" on. */
  lemma ReturnTypeInv(x: string, rest: string) returns (pad2: string, token: string)
    requires ParseReturnType(x) == Ok(rest, None)
    ensures x == pad2 + (token + rest) && AllSpace(pad2)
    ensures Lacks(';', token) && (token == [] || !IsSpace(token[0]))
    ensures rest != [] && rest[0] == ';'
  {
    SkipSpaceSplit(x);
    pad2 := x[..SpaceRun(x)];
    var t := SkipSpace(x);
    TakeUntilSplit(';', t);
    var r := TakeUntil(';', t);
    SkipSpaceStops(r.rest);
    token := r.value;
    if token != [] {
      assert token[0] == t[0];
    }
  }

  /** The intermediate results of a successful `do_parse!` chain. */
  lemma DeclarationStepsInv(s: string)
    returns (afterExport: string, afterKeyword: string, afterName: string,
             afterArgs: string, afterColon: string)
    requires FunctionDeclaration(s).Ok?
    ensures var r := FunctionDeclaration(s);
      SkipSpaceAfter(Tag("export", SkipSpace(s))) == Ok(afterExport, "export") &&
      SkipSpaceAfter(Tag("function", SkipSpace(afterExport))) == Ok(afterKeyword, "function") &&
      SkipSpaceAfter(TakeUntil('(', SkipSpace(afterKeyword))) == Ok(afterName, r.value.name) &&
      ParseArgs(afterName) == Ok(afterArgs, None) &&
      Tag(":", afterArgs) == Ok(afterColon, ":") &&
      ParseReturnType(afterColon) == Ok(r.rest, None)
  {
    afterExport := SkipSpaceAfter(Tag("export", SkipSpace(s))).rest;
    afterKeyword := SkipSpaceAfter(Tag("function", SkipSpace(afterExport))).rest;
    afterName := SkipSpaceAfter(TakeUntil('(', SkipSpace(afterKeyword))).rest;
    afterArgs := ParseArgs(afterName).rest;
    afterColon := Tag(":", afterArgs).rest;
  }

  /** A successful argument list and colon consume exactly "():". */
  lemma ArgsAndColonInv(afterName: string, afterArgs: string, afterColon: string)
    requires ParseArgs(afterName) == Ok(afterArgs, None)
    requires Tag(":", afterArgs) == Ok(afterColon, ":")
    ensures afterName == "():" + afterColon
  {
    assert afterName == afterName[..2] + afterArgs;
    assert afterName[..2] == "()";
  }

  /** Gluing the pieces that the step inversions expose back together. */
  lemma DeclarationGlue(s: string, lead: string, gap: string, pad: string, name: string,
                        pad2: string, token: string, rest: string,
                        afterExport: string, afterKeyword: string, afterColon: string)
    requires s == lead + ("export" + (gap + afterExport))
    requires afterExport == "function" + (pad + afterKeyword)
    requires afterKeyword == name + ("():" + afterColon)
    requires afterColon == pad2 + (token + rest)
    ensures s == Declaration(lead, gap, pad, name, pad2, token, rest)
  {
  }

  /** The pieces of a declaration, read off the steps of a successful parse. */
  lemma SoundFromSteps(s: string, afterExport: string, afterKeyword: string, name: string,
                       afterName: string, afterArgs: string, afterColon: string, rest: string)
    returns (lead: string, gap: string, pad: string, pad2: string, token: string)
    requires SkipSpaceAfter(Tag("export", SkipSpace(s))) == Ok(afterExport, "export")
    requires SkipSpaceAfter(Tag("function", SkipSpace(afterExport))) == Ok(afterKeyword, "function")
    requires SkipSpaceAfter(TakeUntil('(', SkipSpace(afterKeyword))) == Ok(afterName, name)
    requires ParseArgs(afterName) == Ok(afterArgs, None)
    requires Tag(":", afterArgs) == Ok(afterColon, ":")
    requires ParseReturnType(afterColon) == Ok(rest, None)
    ensures WellFormed(lead, gap, pad, name, pad2, token, rest)
    ensures s == Declaration(lead, gap, pad, name, pad2, token, rest)
  {
    SkipSpaceSplit(s);
    lead := s[..SpaceRun(s)];
    gap := KeywordInv("export", SkipSpace(s), afterExport);
    pad := KeywordInv("function", afterExport, afterKeyword);
    NameInv(afterKeyword, name, afterName);
    ArgsAndColonInv(afterName, afterArgs, afterColon);
    pad2, token := ReturnTypeInv(afterColon, rest);
    DeclarationGlue(s, lead, gap, pad, name, pad2, token, rest, afterExport, afterKeyword, afterColon);
  }

  /** Every successful parse comes from a well-formed declaration whose
      name is the one reported and whose rest is the one left over. */
  lemma DeclarationSound(s: string)
    requires FunctionDeclaration(s).Ok?
    ensures var r := FunctionDeclaration(s);
      r.value.args == None && r.value.returnType == None &&
      exists lead, gap, pad, pad2, token ::
        WellFormed(lead, gap, pad, r.value.name, pad2, token, r.rest) &&
        s == Declaration(lead, gap, pad, r.value.name, pad2, token, r.rest)
  {
    var r := FunctionDeclaration(s);
    var afterExport, afterKeyword, afterName, afterArgs, afterColon := DeclarationStepsInv(s);
    var lead, gap, pad, pad2, token :=
      SoundFromSteps(s, afterExport, afterKeyword, r.value.name, afterName, afterArgs, afterColon, r.rest);
  }

  /** "export" holds no "(". */
  lemma ExportLacksParen()
    ensures Lacks('(', "export")
  {
    assert '(' !in "export";
    NotInLacks('(', "export");
  }

  /** "function" holds no "(". */
  lemma FunctionLacksParen()
    ensures Lacks('(', "function")
  {
    assert '(' !in "function";
    NotInLacks('(', "function");
  }

  /** The first "(" of `s` is followed at once by ")" and ":". */
  predicate CallAt(s: string) {
    var i := IndexOf('(', s); i + 2 < |s| && s[i + 1] == ')' && s[i + 2] == ':'
  }

  /** A prefix free of "(" keeps the first "(" where it was. */
  lemma CallAtPrefix(a: string, x: string)
    requires Lacks('(', a) && CallAt(x)
    ensures CallAt(a + x)
  {
    IndexOfAfter('(', a, x);
    var i := IndexOf('(', x);
    assert (a + x)[|a| + i + 1] == x[i + 1];
    assert (a + x)[|a| + i + 2] == x[i + 2];
  }

  /** In a well-formed declaration the first "(" is the one of "():". */
  lemma DeclarationCallShape(lead: string, gap: string, pad: string, name: string,
                             pad2: string, token: string, rest: string)
    requires WellFormed(lead, gap, pad, name, pad2, token, rest)
    ensures CallAt(Declaration(lead, gap, pad, name, pad2, token, rest))
  {
    var x := "():" + (pad2 + (token + rest));
    assert CallAt(x);
    ExportLacksParen();
    FunctionLacksParen();
    SpaceRunLacks('(', lead);
    SpaceRunLacks('(', gap);
    SpaceRunLacks('(', pad);
    CallAtPrefix(name, x);
    CallAtPrefix(pad, name + x);
    CallAtPrefix("function", pad + (name + x));
    CallAtPrefix(gap, "function" + (pad + (name + x)));
    CallAtPrefix("export", gap + ("function" + (pad + (name + x))));
    CallAtPrefix(lead, "export" + (gap + ("function" + (pad + (name + x)))));
  }

  /** The parse fails unless the first "(" of the input is followed at once
      by ")" and then ":": so it fails without a "(", with anything
      (whitespace, an argument) between the parentheses, and without a ":"
      right after ")". */
  lemma CallShapeRequired(s: string)
    ensures Lacks('(', s) ==> FunctionDeclaration(s) == Fail
    ensures FunctionDeclaration(s).Ok? ==> CallAt(s)
  {
    if FunctionDeclaration(s).Ok? {
      var r := FunctionDeclaration(s);
      DeclarationSound(s);
      var lead, gap, pad, pad2, token :|
        WellFormed(lead, gap, pad, r.value.name, pad2, token, r.rest) &&
        s == Declaration(lead, gap, pad, r.value.name, pad2, token, r.rest);
      DeclarationCallShape(lead, gap, pad, r.value.name, pad2, token, r.rest);
    }
  }
}
