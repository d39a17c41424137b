/** The sha256sum(1)-style checksum file of a backup bundle: printer and parser. */
module Checksums {
  import opened Wrappers
  import opened GoStrings

  datatype Artifact = Artifact(path: string, sha256: string)

  predicate HexChar(c: char) {
    '0' <= c <= '9' || 'a' <= c <= 'f' || 'A' <= c <= 'F'
  }

  predicate Digest(s: string) {
    |s| == 64 && forall i :: 0 <= i < |s| ==> HexChar(s[i])
  }

  function Line(a: Artifact): string {
    a.sha256 + "  " + a.path
  }

  function Written(artifacts: seq<Artifact>): string {
    if artifacts == [] then "" else Written(artifacts[..|artifacts| - 1]) + Line(artifacts[|artifacts| - 1]) + "\n"
  }

  method WriteChecksums(artifacts: seq<Artifact>) returns (text: string)
    ensures text == Written(artifacts)
  {
    text := "";
    for i := 0 to |artifacts|
      invariant text == Written(artifacts[..i])
    {
      assert artifacts[..i + 1][..i] == artifacts[..i];
      text := text + Line(artifacts[i]) + "\n";
    }
    assert artifacts[..|artifacts|] == artifacts;
  }

  /** strings.Split(s, "\n"). */
  function Split(s: string): (lines: seq<string>)
    ensures lines != []
  {
    if s == "" then [""]
    else
      var rest := Split(s[1..]);
      if s[0] == '\n' then [""] + rest else [[s[0]] + rest[0]] + rest[1..]
  }

  /** strings.Cut(s, "  "). */
  function Cut(s: string): Option<(string, string)> {
    if |s| < 2 then None
    else if s[0] == ' ' && s[1] == ' ' then Some(("", s[2..]))
    else
      match Cut(s[1..])
      case None => None
      case Some((before, after)) => Some(([s[0]] + before, after))
  }

  datatype Parsed = Blank | Bad | Good(artifact: Artifact)

  function ParseLine(raw: string): Parsed {
    var line := TrimSpace(raw);
    if line == "" then Blank
    else
      match Cut(line)
      case None => Bad
      case Some((sum, name)) => if Digest(sum) then Good(Artifact(name, sum)) else Bad
  }

  function ParseLines(lines: seq<string>): Option<seq<Artifact>> {
    if lines == [] then Some([])
    else
      var first, rest := ParseLine(lines[0]), ParseLines(lines[1..]);
      if first.Bad? || rest.None? then None
      else if first.Blank? then rest
      else Some([first.artifact] + rest.value)
  }

  /** What reading a checksum file gives: the artifacts, or an error, also when it lists none. */
  function Read(text: string): Option<seq<Artifact>> {
    var parsed := ParseLines(Split(text));
    if parsed == Some([]) then None else parsed
  }

  function Prepend(out: seq<Artifact>, rest: Option<seq<Artifact>>): Option<seq<Artifact>> {
    if rest.None? then None else Some(out + rest.value)
  }

  lemma PrependOne(out: seq<Artifact>, a: Artifact, rest: Option<seq<Artifact>>)
    ensures Prepend(out, if rest.None? then None else Some([a] + rest.value)) == Prepend(out + [a], rest)
  {
    if rest.Some? { assert out + ([a] + rest.value) == (out + [a]) + rest.value; }
  }

  method ReadChecksums(text: string) returns (r: Option<seq<Artifact>>)
    ensures r == Read(text)
  {
    var lines := Split(text);
    var out: seq<Artifact> := [];
    assert lines[0..] == lines && forall v: seq<Artifact> :: [] + v == v;
    for i := 0 to |lines|
      invariant ParseLines(lines) == Prepend(out, ParseLines(lines[i..]))
    {
      assert lines[i..][1..] == lines[i + 1..];
      var line := TrimSpace(lines[i]);
      if line == "" { continue; }
      var cut := Cut(line);
      if cut.None? { return None; }
      var (sum, name) := cut.value;
      if !Digest(sum) { return None; }
      PrependOne(out, Artifact(name, sum), ParseLines(lines[i + 1..]));
      out := out + [Artifact(name, sum)];
    }
    assert out + [] == out;
    return if out == [] then None else Some(out);
  }

  // ---- round trip ----

  /** What survives the file: a 64-digit hex digest and a non-empty path without newline or trailing space. */
  predicate WellFormed(a: Artifact) {
    Digest(a.sha256) && a.path != "" && '\n' !in a.path && !IsSpace(a.path[|a.path| - 1])
  }

  ghost predicate AllWellFormed(artifacts: seq<Artifact>) {
    forall a :: a in artifacts ==> WellFormed(a)
  }

  lemma {:induction false} SplitLine(line: string, rest: string)
    requires '\n' !in line
    ensures Split(line + "\n" + rest) == [line] + Split(rest)
  {
    var s := line + "\n" + rest;
    if line == "" {
      assert s[1..] == rest;
    } else {
      assert s[1..] == line[1..] + "\n" + rest;
      SplitLine(line[1..], rest);
      assert [line[0]] + line[1..] == line;
    }
  }

  lemma {:induction false} CutLine(sum: string, name: string)
    requires forall i :: 0 <= i < |sum| ==> sum[i] != ' '
    ensures Cut(sum + "  " + name) == Some((sum, name))
  {
    var s := sum + "  " + name;
    if sum == "" {
      assert s[2..] == name;
    } else {
      assert s[1..] == sum[1..] + "  " + name;
      CutLine(sum[1..], name);
      assert [sum[0]] + sum[1..] == sum;
    }
  }

  lemma ParseWrittenLine(a: Artifact)
    requires WellFormed(a)
    ensures ParseLine(Line(a)) == Good(a) && '\n' !in Line(a)
  {
    var line := Line(a);
    assert line[0] == a.sha256[0] && HexChar(a.sha256[0]);
    assert line[|line| - 1] == a.path[|a.path| - 1];
    assert forall i :: 0 <= i < |a.sha256| ==> HexChar(a.sha256[i]) && a.sha256[i] != ' ' && a.sha256[i] != '\n';
    CutLine(a.sha256, a.path);
  }

  lemma {:induction false} WrittenFirst(artifacts: seq<Artifact>)
    requires artifacts != []
    ensures Written(artifacts) == Line(artifacts[0]) + "\n" + Written(artifacts[1..])
  {
    var last := |artifacts| - 1;
    if last > 0 {
      var front, rest := artifacts[..last], artifacts[1..];
      assert rest[..last - 1] == front[1..];
      WrittenFirst(front);
      Regroup(Line(front[0]) + "\n", Written(front[1..]), Line(artifacts[last]), "\n");
    } else {
      assert artifacts[..0] == [] && artifacts[1..] == [];
    }
  }

  /** One line per artifact, in order: digest, two spaces, path, newline. */
  lemma {:induction false} WrittenFormat(a: seq<Artifact>, b: seq<Artifact>, x: Artifact)
    ensures Written(a + b) == Written(a) + Written(b)
    ensures Written([x]) == x.sha256 + "  " + x.path + "\n"
    decreases |b|
  {
    assert [x][..0] == [];
    if b == [] {
      assert a + b == a;
    } else {
      var front, last := b[..|b| - 1], b[|b| - 1];
      assert (a + b)[..|a + b| - 1] == a + front;
      WrittenFormat(a, front, x);
      Regroup(Written(a), Written(front), Line(last), "\n");
    }
  }

  lemma Regroup(a: string, b: string, c: string, d: string)
    ensures (a + b) + c + d == a + (b + c + d)
  {
  }

  lemma {:induction false} ParseWritten(artifacts: seq<Artifact>)
    requires AllWellFormed(artifacts)
    ensures ParseLines(Split(Written(artifacts))) == Some(artifacts)
  {
    if artifacts == [] {
      assert ParseLine("") == Blank && [""][1..] == [];
    } else {
      var a, rest := artifacts[0], Written(artifacts[1..]);
      WrittenFirst(artifacts);
      ParseWrittenLine(a);
      SplitLine(Line(a), rest);
      assert ([Line(a)] + Split(rest))[1..] == Split(rest);
      ParseWritten(artifacts[1..]);
      assert artifacts == [a] + artifacts[1..];
    }
  }

  // ---- the parser only returns well-formed artifacts ----

  lemma {:induction false} SplitHasNoNewline(s: string)
    ensures forall line :: line in Split(s) ==> '\n' !in line
  {
    if s != "" { SplitHasNoNewline(s[1..]); }
  }

  lemma {:induction false} TrimKeepsChars(s: string)
    ensures forall c :: c in TrimSpace(s) ==> c in s
  {
    if s == "" {
    } else if IsSpace(s[0]) {
      TrimKeepsChars(s[1..]);
    } else if IsSpace(s[|s| - 1]) {
      TrimKeepsChars(s[..|s| - 1]);
    }
  }

  lemma {:induction false} CutSplits(s: string)
    requires Cut(s).Some?
    ensures s == Cut(s).value.0 + "  " + Cut(s).value.1
  {
    if !(s[0] == ' ' && s[1] == ' ') {
      CutSplits(s[1..]);
      assert s == [s[0]] + s[1..];
    }
  }

  lemma ParsedIsWellFormed(raw: string)
    requires '\n' !in raw && ParseLine(raw).Good?
    ensures WellFormed(ParseLine(raw).artifact)
  {
    var line := TrimSpace(raw);
    TrimKeepsChars(raw);
    CutSplits(line);
    var name := Cut(line).value.1;
    assert line[|line| - 1] == if name == "" then ' ' else name[|name| - 1];
    forall c | c in name ensures c in line {
      var i :| 0 <= i < |name| && name[i] == c;
      assert line[|line| - |name| + i] == c;
    }
  }

  lemma {:induction false} ParsedLinesWellFormed(lines: seq<string>)
    requires ParseLines(lines).Some? && forall line :: line in lines ==> '\n' !in line
    ensures AllWellFormed(ParseLines(lines).value)
  {
    if lines != [] {
      ParsedLinesWellFormed(lines[1..]);
      if ParseLine(lines[0]).Good? { ParsedIsWellFormed(lines[0]); }
    }
  }

  /** Reading back the written file returns the same list exactly when it is non-empty and well formed. */
  lemma ChecksumRoundTrip(artifacts: seq<Artifact>)
    ensures Read(Written(artifacts)) == Some(artifacts) <==> artifacts != [] && AllWellFormed(artifacts)
  {
    if AllWellFormed(artifacts) { ParseWritten(artifacts); }
    if Read(Written(artifacts)) == Some(artifacts) {
      SplitHasNoNewline(Written(artifacts));
      ParsedLinesWellFormed(Split(Written(artifacts)));
    }
  }
}
