/**
 * The pure output-naming logic of `MarkdownConverter`: the three property
 * accessors and the file-name template `"{prefix} - {name}{extension}"`,
 * where `name` is the first piece of the recorded input path split on ".".
 */
module Naming {
  import opened Results

  /** `suffix` is a suffix of `s` (Python's `s.endswith(suffix)`). */
  predicate HasSuffix(s: string, suffix: string)
  {
    |suffix| <= |s| && s[|s| - |suffix|..] == suffix
  }

  /** Python's `".".join(parts)` for a non-empty list of pieces. */
  function JoinWithDot(parts: seq<string>): (s: string)
    requires |parts| >= 1
    decreases |parts|
  {
    if |parts| == 1 then parts[0] else parts[0] + "." + JoinWithDot(parts[1..])
  }

  /** Every piece is free of ".". */
  predicate DotFree(parts: seq<string>)
  {
    forall i :: 0 <= i < |parts| ==> '.' !in parts[i]
  }

  /** Prepending a character to the first piece prepends it to the joined string. */
  lemma JoinConsChar(c: char, parts: seq<string>)
    requires |parts| >= 1
    ensures JoinWithDot([[c] + parts[0]] + parts[1..]) == [c] + JoinWithDot(parts)
  {
    var parts' := [[c] + parts[0]] + parts[1..];
    if |parts| > 1 {
      assert parts'[1..] == parts[1..];
    }
  }

  /**
   * Python's `s.split(".")`: the pieces between the dots, in order. There is
   * always at least one piece, no piece holds a dot, and joining the pieces
   * with "." gives back `s`.
   */
  function SplitOnDot(s: string): (parts: seq<string>)
    ensures |parts| >= 1
    ensures DotFree(parts)
    ensures JoinWithDot(parts) == s
    decreases |s|
  {
    if s == [] then [""]
    else
      var rest := SplitOnDot(s[1..]);
      if s[0] == '.' then
        assert ([""] + rest)[1..] == rest;
        [""] + rest
      else
        JoinConsChar(s[0], rest);
        [[s[0]] + rest[0]] + rest[1..]
  }

  /** Splitting at two dots that both start dot-free pieces: the pieces agree. */
  lemma FirstDotUnique(a: string, t: string, b: string, u: string)
    requires '.' !in a && '.' !in b
    requires a + "." + t == b + "." + u
    ensures a == b && t == u
  {
    var s := a + "." + t;
    assert s[|a|] == '.' && s[..|a|] == a;
    assert s[|b|] == '.' && s[..|b|] == b;
    assert |a| == |b|;
    assert t == s[|a| + 1..] == u;
  }

  /** A join of dot-free pieces holds a dot exactly when there are at least two pieces. */
  lemma DotInJoin(parts: seq<string>)
    requires |parts| >= 1 && DotFree(parts)
    ensures ('.' in JoinWithDot(parts)) == (|parts| > 1)
  {
    if |parts| > 1 {
      assert JoinWithDot(parts)[|parts[0]|] == '.';
    }
  }

  /** Joining dot-free pieces with "." is injective. */
  lemma {:induction false} JoinInjective(p: seq<string>, q: seq<string>)
    requires |p| >= 1 && |q| >= 1
    requires DotFree(p) && DotFree(q)
    requires JoinWithDot(p) == JoinWithDot(q)
    ensures p == q
    decreases |p|
  {
    DotInJoin(p);
    DotInJoin(q);
    if |p| > 1 {
      FirstDotUnique(p[0], JoinWithDot(p[1..]), q[0], JoinWithDot(q[1..]));
      assert DotFree(p[1..]) && DotFree(q[1..]) by {
        forall i | 0 <= i < |p| - 1 ensures '.' !in p[1..][i] { assert p[1..][i] == p[i + 1]; }
        forall i | 0 <= i < |q| - 1 ensures '.' !in q[1..][i] { assert q[1..][i] == q[i + 1]; }
      }
      JoinInjective(p[1..], q[1..]);
      assert p == [p[0]] + p[1..];
      assert q == [q[0]] + q[1..];
    }
  }

  /** Splitting undoes joining: `".".join(parts).split(".") == parts` for dot-free pieces. */
  lemma SplitJoinRoundTrip(parts: seq<string>)
    requires |parts| >= 1 && DotFree(parts)
    ensures SplitOnDot(JoinWithDot(parts)) == parts
  {
    JoinInjective(SplitOnDot(JoinWithDot(parts)), parts);
  }

  /**
   * `s.split(".")[0]`: the text of `s` before its first ".", or all of `s`
   * when it has none. The split is on the whole path string, directories
   * included.
   */
  function Stem(s: string): (r: string)
    ensures r <= s
    ensures '.' !in r
    ensures |r| < |s| ==> s[|r|] == '.'
  {
    var parts := SplitOnDot(s);
    assert |parts| > 1 ==> s == parts[0] + "." + JoinWithDot(parts[1..]);
    parts[0]
  }

  /** The three properties of `Stem` single out its result: it is the longest dot-free prefix. */
  lemma StemCharacterized(s: string, r: string)
    requires r <= s && '.' !in r
    requires |r| < |s| ==> s[|r|] == '.'
    ensures r == Stem(s)
  {
    var t := Stem(s);
    assert r == s[..|r|] && t == s[..|t|];
    assert |r| == |t|;
  }

  /** Worked case: only the text before the first dot is kept. */
  lemma StemOfDottedName()
    ensures Stem("a.b.md") == "a"
  {
    StemCharacterized("a.b.md", "a");
  }

  /** Worked case: a path that starts with ".." has the empty stem. */
  lemma StemOfParentPath()
    ensures Stem("../x.md") == ""
  {
    StemCharacterized("../x.md", "");
  }

  /** Worked case: a dot in a directory name cuts the path there. */
  lemma StemOfDottedDirectory()
    ensures Stem("my.dir/report.md") == "my"
  {
    StemCharacterized("my.dir/report.md", "my");
  }

  /** Without a dot the whole string is kept. */
  lemma StemWithoutDot(s: string)
    requires '.' !in s
    ensures Stem(s) == s
  {
    StemCharacterized(s, s);
  }

  /** The `output_extension` property: the field, or a configuration error when it is unset. */
  function OutputExtension(field: Option<string>): (r: Result<string>)
    ensures r.Failure? <==> field.None?
    ensures r.Failure? ==> r.error == ConfigurationError
    ensures r.Success? ==> r.value == field.value
  {
    match field
    case None => Failure(ConfigurationError)
    case Some(ext) => Success(ext)
  }

  /** The `output_prefix` property: the field, or "" when it is `None`. */
  function OutputPrefix(field: Option<string>): (r: string)
    ensures field.None? ==> r == ""
    ensures field.Some? ==> r == field.value
  {
    match field
    case None => ""
    case Some(prefix) => prefix
  }

  /** The `input_file_name` property: the recorded path, or "" when none (or an empty one) is recorded. */
  function InputFileName(field: Option<string>): (r: string)
    ensures r == "" <==> field.None? || field == Some("")
    ensures field.Some? ==> r == field.value
  {
    match field
    case None => ""
    case Some(name) => name
  }

  /**
   * The `name` that `output_file_name` substitutes: the stem of a non-empty
   * input name, "" otherwise. The emptiness guard changes nothing, because
   * the stem of "" is "" already.
   */
  function BaseName(inputFileName: string): (name: string)
    ensures name == Stem(inputFileName)
  {
    if inputFileName != "" then Stem(inputFileName) else ""
  }

  /**
   * The file-name part of `output_file_name`, before it is joined under the
   * output directory. It fails exactly when the extension is unset, and
   * otherwise starts with the prefix and " - " and ends with the extension.
   */
  function FileName(extension: Option<string>, prefix: Option<string>, inputFileName: Option<string>): (r: Result<string>)
    ensures r.Success? <==> extension.Some?
    ensures r.Failure? ==> r.error == ConfigurationError
    ensures r.Success? ==> OutputPrefix(prefix) + " - " <= r.value
    ensures r.Success? ==> HasSuffix(r.value, extension.value)
  {
    var name := BaseName(InputFileName(inputFileName));
    match OutputExtension(extension)
    case Failure(e) => Failure(e)
    case Success(ext) =>
      var r := OutputPrefix(prefix) + " - " + name + ext;
      assert r[|r| - |ext|..] == ext;
      Success(r)
  }

  /**
   * What lies between " - " and the extension in a file name is the stem of
   * the recorded input path: the file name determines the stem it was made from.
   */
  lemma FileNameRecoversStem(extension: string, prefix: Option<string>, inputFileName: Option<string>)
    ensures FileName(Some(extension), prefix, inputFileName).Success?
    ensures var r := FileName(Some(extension), prefix, inputFileName).value;
            var start := |OutputPrefix(prefix)| + 3;
            start <= |r| - |extension| &&
            r[start..|r| - |extension|] == Stem(InputFileName(inputFileName))
  {
    var p := OutputPrefix(prefix);
    var n := Stem(InputFileName(inputFileName));
    var r := p + " - " + n + extension;
    assert r[|p| + 3..|r| - |extension|] == n;
  }

  /** Before any input is recorded the name degenerates to `prefix + " - " + extension`. */
  lemma FileNameBeforeRead(extension: string, prefix: Option<string>)
    ensures FileName(Some(extension), prefix, None) == Success(OutputPrefix(prefix) + " - " + extension)
  {
    StemCharacterized("", "");
    assert OutputPrefix(prefix) + " - " + "" + extension == OutputPrefix(prefix) + " - " + extension;
  }

  /** With the default prefix "" (or a prefix of `None`) the file name starts with " - ". */
  lemma DefaultPrefixFileName(extension: string, prefix: Option<string>, inputFileName: Option<string>)
    requires prefix == Some("") || prefix == None
    ensures FileName(Some(extension), prefix, inputFileName).Success?
    ensures " - " <= FileName(Some(extension), prefix, inputFileName).value
  {
  }

  /** Two converters that differ only in their extension produce different file names. */
  lemma FileNamesDifferByExtension(e1: string, e2: string, prefix: Option<string>, inputFileName: Option<string>)
    requires e1 != e2
    ensures FileName(Some(e1), prefix, inputFileName) != FileName(Some(e2), prefix, inputFileName)
  {
    var head := OutputPrefix(prefix) + " - " + BaseName(InputFileName(inputFileName));
    var r1 := FileName(Some(e1), prefix, inputFileName).value;
    var r2 := FileName(Some(e2), prefix, inputFileName).value;
    assert r1 == head + e1 && r2 == head + e2;
    assert r1[|head|..] == e1 && r2[|head|..] == e2;
  }

  /**
   * Inputs whose stems agree get the same file name: "report.md" and
   * "report.txt" collide, and so do all inputs under a directory "my.dir/".
   */
  lemma FileNameDependsOnlyOnStem(extension: Option<string>, prefix: Option<string>, in1: string, in2: string)
    ensures FileName(extension, prefix, Some(in1)) == FileName(extension, prefix, Some(in2))
        <==> (extension.None? || Stem(in1) == Stem(in2))
  {
    if extension.Some? && FileName(extension, prefix, Some(in1)) == FileName(extension, prefix, Some(in2)) {
      FileNameRecoversStem(extension.value, prefix, Some(in1));
      FileNameRecoversStem(extension.value, prefix, Some(in2));
    }
  }

  /** The default-prefix PDF file name of an input with a known stem. */
  lemma PdfFileNameOfStem(input: string, stem: string)
    requires Stem(input) == stem
    ensures FileName(Some(".pdf"), Some(""), Some(input)) == Success(" - " + stem + ".pdf")
  {
    assert "" + " - " + stem + ".pdf" == " - " + stem + ".pdf";
  }

  /** Worked collision: inputs that differ only after the first dot share a file name. */
  lemma FileNameCollisionOnExtension(rest: string)
    ensures FileName(Some(".pdf"), Some(""), Some("report." + rest)) == Success(" - report.pdf")
  {
    StemCharacterized("report." + rest, "report");
    PdfFileNameOfStem("report." + rest, "report");
    assert " - " + "report" + ".pdf" == " - report.pdf";
  }

  /** Worked collision: every input under a directory "my.dir/" gets the stem "my". */
  lemma FileNameCollisionOnDirectory(rest: string)
    ensures FileName(Some(".pdf"), Some(""), Some("my.dir/" + rest)) == Success(" - my.pdf")
  {
    StemCharacterized("my.dir/" + rest, "my");
    PdfFileNameOfStem("my.dir/" + rest, "my");
    assert " - " + "my" + ".pdf" == " - my.pdf";
  }
}
