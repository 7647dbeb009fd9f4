/// The markdown page built from a crate's package record: a title line,
/// a version line, the description when there is one, and a license
/// section when there is one. Reading `Cargo.toml` and writing the page to
/// disk are not part of the model; the record is an input.
module Markdown {
  import opened Options
  import opened Text

  /** The `[package]` table of `Cargo.toml`. */
  datatype Package = Package(name: string, version: string,
                             license: Option<string>, description: Option<string>)

  /** The deserialised `Cargo.toml`. */
  datatype CargoToml = CargoToml(package: Package)

  /** The title line. */
  function TitleLine(name: string): string {
    "# " + name + "\n"
  }

  /** The version line. */
  function VersionLine(version: string): string {
    "### Version: " + version + "\n"
  }

  /** The description and its line break, or nothing. */
  function DescriptionPart(description: Option<string>): string {
    match description
    case None => ""
    case Some(d) => d + "\n"
  }

  /** The license heading, the license and its line break, or nothing. */
  function LicensePart(license: Option<string>): string {
    match license
    case None => ""
    case Some(l) => "## License\n" + l + "\n"
  }

  /** The page for a package: title, version, description, license. */
  function Layout(p: Package): string {
    TitleLine(p.name) + (VersionLine(p.version) + (DescriptionPart(p.description) + LicensePart(p.license)))
  }

  /** What the builder appends, one entry per `push_str` or `push`, in order. */
  function Pieces(p: Package): seq<string> {
    [TitleLine(p.name), VersionLine(p.version)]
    + DescriptionPieces(p.description) + LicensePieces(p.license)
  }

  /** The description is appended, then a line break on its own. */
  function DescriptionPieces(description: Option<string>): seq<string> {
    match description
    case None => []
    case Some(d) => [d, "\n"]
  }

  /** The license section is appended in one piece. */
  function LicensePieces(license: Option<string>): seq<string> {
    match license
    case None => []
    case Some(l) => ["## License\n" + l + "\n"]
  }

  /** The buffer after appending `pieces` to an empty one, in order. */
  function Concat(pieces: seq<string>): string {
    if pieces == [] then "" else Concat(pieces[..|pieces| - 1]) + pieces[|pieces| - 1]
  }

  /** The sum of the lengths of `pieces`. */
  function TotalLength(pieces: seq<string>): nat {
    if pieces == [] then 0 else TotalLength(pieces[..|pieces| - 1]) + |pieces[|pieces| - 1]|
  }

  /** Appending one more piece appends it to the buffer. */
  lemma ConcatSnoc(pieces: seq<string>, piece: string)
    ensures Concat(pieces + [piece]) == Concat(pieces) + piece
  {
    assert (pieces + [piece])[..|pieces|] == pieces;
  }

  /** Builds the page by appending to an initially empty buffer: the title
      and version lines, then the description and a line break if there is
      one, then the license section if there is one. */
  method GenerateMarkdown(config: CargoToml) returns (markdown: string)
    ensures markdown == Layout(config.package)
    ensures markdown == Concat(Pieces(config.package))
  {
    var package := config.package;
    ghost var pushed: seq<string> := [];
    markdown := "";

    ConcatSnoc(pushed, "# " + package.name + "\n");
    markdown := markdown + ("# " + package.name + "\n");
    pushed := pushed + ["# " + package.name + "\n"];
    ConcatSnoc(pushed, "### Version: " + package.version + "\n");
    markdown := markdown + ("### Version: " + package.version + "\n");
    pushed := pushed + ["### Version: " + package.version + "\n"];

    if package.description.Some? {
      var description := package.description.value;
      ConcatSnoc(pushed, description);
      markdown := markdown + description;
      pushed := pushed + [description];
      ConcatSnoc(pushed, "\n");
      markdown := markdown + "\n";
      pushed := pushed + ["\n"];
    }

    if package.license.Some? {
      var license := package.license.value;
      ConcatSnoc(pushed, "## License\n" + license + "\n");
      markdown := markdown + ("## License\n" + license + "\n");
      pushed := pushed + ["## License\n" + license + "\n"];
    }

    assert pushed == Pieces(package);
    LayoutIsConcat(package);
  }

  /** Appending two runs of pieces appends their buffers. */
  lemma {:induction false} ConcatAppend(a: seq<string>, b: seq<string>)
    ensures Concat(a + b) == Concat(a) + Concat(b)
    decreases |b|
  {
    if b != [] {
      var last := b[|b| - 1];
      var init := b[..|b| - 1];
      assert a + b == (a + init) + [last];
      ConcatSnoc(a + init, last);
      ConcatAppend(a, init);
      ConcatSnoc(init, last);
      assert b == init + [last];
    } else {
      assert a + b == a;
    }
  }

  /** The two header pieces make up the two header lines. */
  lemma HeaderConcat(name: string, version: string)
    ensures Concat([TitleLine(name), VersionLine(version)]) == TitleLine(name) + VersionLine(version)
  {
    ConcatSnoc([], TitleLine(name));
    ConcatSnoc([TitleLine(name)], VersionLine(version));
    assert [TitleLine(name)] + [VersionLine(version)] == [TitleLine(name), VersionLine(version)];
  }

  /** The description pieces make up the description part. */
  lemma DescriptionConcat(description: Option<string>)
    ensures Concat(DescriptionPieces(description)) == DescriptionPart(description)
  {
    if description.Some? {
      ConcatSnoc([], description.value);
      ConcatSnoc([description.value], "\n");
      assert [description.value] + ["\n"] == DescriptionPieces(description);
    }
  }

  /** The license pieces make up the license part. */
  lemma LicenseConcat(license: Option<string>)
    ensures Concat(LicensePieces(license)) == LicensePart(license)
  {
    if license.Some? {
      ConcatSnoc([], LicensePart(license));
    }
  }

  /** Four strings joined left to right or right to left.
      Proof step only: associativity of `+`, not a property of the page. */
  lemma Regroup(a: string, b: string, c: string, e: string)
    ensures ((a + b) + c) + e == a + (b + (c + e))
  {
  }

  /** The pieces appended in order make up the page. */
  lemma LayoutIsConcat(p: Package)
    ensures Concat(Pieces(p)) == Layout(p)
  {
    var header := [TitleLine(p.name), VersionLine(p.version)];
    HeaderConcat(p.name, p.version);
    DescriptionConcat(p.description);
    LicenseConcat(p.license);
    ConcatAppend(header, DescriptionPieces(p.description));
    ConcatAppend(header + DescriptionPieces(p.description), LicensePieces(p.license));
    Regroup(TitleLine(p.name), VersionLine(p.version), DescriptionPart(p.description), LicensePart(p.license));
  }

  /** The buffer only grows: after fewer appends it is a prefix of the
      buffer after more. */
  lemma {:induction false} ConcatPrefix(pieces: seq<string>, i: nat, j: nat)
    requires i <= j <= |pieces|
    ensures Concat(pieces[..i]) <= Concat(pieces[..j])
    decreases j - i
  {
    if i < j {
      ConcatPrefix(pieces, i, j - 1);
      assert pieces[..j][..j - 1] == pieces[..j - 1];
    }
  }

  /** The buffer is as long as the pieces appended to it together. */
  lemma {:induction false} ConcatLength(pieces: seq<string>)
    ensures |Concat(pieces)| == TotalLength(pieces)
  {
    if pieces != [] {
      ConcatLength(pieces[..|pieces| - 1]);
    }
  }

  /** The page starts with the title line and then the version line. */
  lemma LayoutStartsWithHeader(p: Package)
    ensures "# " + p.name + "\n" + "### Version: " + p.version + "\n" <= Layout(p)
  {
    var header := "# " + p.name + "\n" + "### Version: " + p.version + "\n";
    assert Layout(p) == header + (DescriptionPart(p.description) + LicensePart(p.license));
  }

  /** A description, with its line break, comes right after the version
      line; without one the license part follows the version line at once. */
  lemma DescriptionPlacement(p: Package)
    ensures p.description.Some? ==>
      TitleLine(p.name) + VersionLine(p.version) + (p.description.value + "\n") <= Layout(p)
    ensures p.description == None ==>
      Layout(p) == TitleLine(p.name) + VersionLine(p.version) + LicensePart(p.license)
  {
    Regroup(TitleLine(p.name), VersionLine(p.version), DescriptionPart(p.description), LicensePart(p.license));
  }

  /** With neither description nor license the page is just the two header lines. */
  lemma LayoutBare(p: Package)
    requires p.description == None && p.license == None
    ensures Layout(p) == "# " + p.name + "\n" + "### Version: " + p.version + "\n"
  {
  }

  /** The license section, when present, ends the page; without a license
      the page ends with the description part. */
  lemma LicenseLast(p: Package)
    ensures p.license.Some? ==>
      var section := "## License\n" + p.license.value + "\n";
      |section| <= |Layout(p)| && Layout(p)[|Layout(p)| - |section|..] == section
    ensures p.license == None ==>
      Layout(p) == TitleLine(p.name) + VersionLine(p.version) + DescriptionPart(p.description)
  {
    var front := TitleLine(p.name) + VersionLine(p.version) + DescriptionPart(p.description);
    assert Layout(p) == front + LicensePart(p.license);
  }

  /** The page length: 17 characters of fixed text around the name and
      version, the description and its line break, and 12 characters of
      fixed text around the license. */
  lemma LayoutLength(p: Package)
    ensures |Layout(p)| ==
      17 + |p.name| + |p.version|
      + (match p.description case None => 0 case Some(d) => |d| + 1)
      + (match p.license case None => 0 case Some(l) => 12 + |l|)
  {
  }

  /** The title prefix holds no line break. */
  lemma TitlePrefixSingleLine()
    ensures Lacks('\n', "# ")
  {
    assert '\n' !in "# ";
    NotInLacks('\n', "# ");
  }

  /** The version prefix holds no line break. */
  lemma VersionPrefixSingleLine()
    ensures Lacks('\n', "### Version: ")
  {
    assert '\n' !in "### Version: ";
    NotInLacks('\n', "### Version: ");
  }

  /** The license heading holds no line break. */
  lemma LicenseHeadingSingleLine()
    ensures Lacks('\n', "## License")
  {
    assert '\n' !in "## License";
    NotInLacks('\n', "## License");
  }

  /** The license heading is a line of its own.
      Proof step only: a fact about a string literal, not a property of
      the page. */
  lemma LicenseHeadingLine()
    ensures "## License\n" == "## License" + "\n"
  {
  }

  /** A prefixed field on a line of its own. */
  lemma FieldLine(prefix: string, field: string, x: string)
    requires Lacks('\n', prefix) && Lacks('\n', field)
    ensures Lines((prefix + field + "\n") + x) == [prefix + field] + Lines(x)
  {
    LacksAppend('\n', prefix, field);
    LinesCons(prefix + field, x);
  }

  /** The lines of the description part. */
  lemma DescriptionLines(description: Option<string>, x: string)
    requires description.Some? ==> Lacks('\n', description.value)
    ensures Lines(DescriptionPart(description) + x)
            == (match description case None => [] case Some(d) => [d]) + Lines(x)
  {
    if description.Some? {
      LinesCons(description.value, x);
    } else {
      assert DescriptionPart(description) + x == x;
    }
  }

  /** The lines of the license part. */
  lemma LicenseLines(license: Option<string>)
    requires license.Some? ==> Lacks('\n', license.value)
    ensures Lines(LicensePart(license))
            == (match license case None => [] case Some(l) => ["## License", l])
  {
    if license.Some? {
      var l := license.value;
      LicenseHeadingLine();
      LicenseHeadingSingleLine();
      assert LicensePart(license) == ("## License" + "\n") + (l + "\n");
      LinesCons("## License", l + "\n");
      LinesCons(l, "");
      assert (l + "\n") + "" == l + "\n";
    }
  }

  /** Two lines in front of two runs of lines.
      Proof step only: associativity of `+`, not a property of the page. */
  lemma LinesRegroup(a: string, b: string, c: seq<string>, e: seq<string>)
    ensures [a] + ([b] + (c + e)) == [a, b] + c + e
  {
  }

  /** Read back line by line, the page is the title line, the version
      line, the description if present, and the license heading and the
      license if present: provided no field holds a line break. */
  lemma LayoutLines(p: Package)
    requires Lacks('\n', p.name) && Lacks('\n', p.version)
    requires p.description.Some? ==> Lacks('\n', p.description.value)
    requires p.license.Some? ==> Lacks('\n', p.license.value)
    ensures Lines(Layout(p)) ==
      ["# " + p.name, "### Version: " + p.version]
      + (match p.description case None => [] case Some(d) => [d])
      + (match p.license case None => [] case Some(l) => ["## License", l])
  {
    var descriptionLines := match p.description case None => [] case Some(d) => [d];
    var licenseLines := match p.license case None => [] case Some(l) => ["## License", l];
    var rest := DescriptionPart(p.description) + LicensePart(p.license);
    LicenseLines(p.license);
    DescriptionLines(p.description, LicensePart(p.license));
    assert Lines(rest) == descriptionLines + licenseLines;
    VersionPrefixSingleLine();
    FieldLine("### Version: ", p.version, rest);
    assert Lines(VersionLine(p.version) + rest) == ["### Version: " + p.version] + Lines(rest);
    TitlePrefixSingleLine();
    FieldLine("# ", p.name, VersionLine(p.version) + rest);
    LinesRegroup("# " + p.name, "### Version: " + p.version, descriptionLines, licenseLines);
  }
}
