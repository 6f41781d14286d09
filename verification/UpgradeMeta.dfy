/** The meta file of an appliance upgrade (handlers/appliance_upgrade.go): printed before the
    write starts, read back while it runs. */
module UpgradeMeta {
  import opened Options
  import opened Text

  type int64 = n: int | MIN_INT64 <= n <= MAX_INT64

  datatype Meta = Meta(version: string, total: int64, mode: string, disk: string, baseline: int64)

  /** applianceWriteMeta.String. */
  function Print(m: Meta): string {
    m.version + "\n" + (FormatInt(m.total) + "\n" + (m.mode + "\n" + (m.disk + "\n" + (FormatInt(m.baseline) + "\n"))))
  }

  /** readTrim; a file that cannot be read reads as empty. */
  function ReadTrim(file: Option<string>): string {
    match file
    case None => ""
    case Some(text) => TrimSpace(text)
  }

  function Field(fields: seq<string>, i: nat): string {
    if i < |fields| then TrimSpace(fields[i]) else ""
  }

  /** The value ParseInt leaves, error or not. */
  function ReadInt(s: string): int64 {
    ParseInt(s).value
  }

  /** readApplianceWriteMeta. */
  function Read(file: Option<string>): Meta {
    var f := Split(ReadTrim(file), '\n');
    Meta(Field(f, 0), ReadInt(Field(f, 1)), Field(f, 2), Field(f, 3), ReadInt(Field(f, 4)))
  }

  // ---- texts ----

  predicate Line(s: string) {
    '\n' !in s && TrimSpace(s) == s
  }

  predicate AllSpace(s: string) {
    forall i | 0 <= i < |s| :: IsSpace(s[i])
  }

  lemma {:induction false} TrimLeftOf(x: string, y: string)
    requires AllSpace(x) && y != "" && !IsSpace(y[0])
    ensures TrimLeft(x + y) == y
    decreases |x|
  {
    if x == "" { assert x + y == y; }
    else {
      assert (x + y)[0] == x[0] && (x + y)[1..] == x[1..] + y;
      TrimLeftOf(x[1..], y);
    }
  }

  lemma {:induction false} TrimRightOf(y: string, z: string)
    requires AllSpace(z) && y != "" && !IsSpace(y[|y| - 1])
    ensures TrimRight(y + z) == y
    decreases |z|
  {
    if z == "" { assert y + z == y; }
    else {
      assert (y + z)[..|y + z| - 1] == y + z[..|z| - 1];
      assert (y + z)[|y + z| - 1] == z[|z| - 1];
      TrimRightOf(y, z[..|z| - 1]);
    }
  }

  lemma TrimOf(x: string, y: string, z: string)
    requires AllSpace(x) && AllSpace(z) && y != "" && !IsSpace(y[0]) && !IsSpace(y[|y| - 1])
    ensures TrimSpace(x + y + z) == y
  {
    assert x + y + z == x + (y + z);
    TrimLeftOf(x, y + z);
    TrimRightOf(y, z);
  }

  lemma IntLine(n: int64)
    ensures FormatInt(n) != "" && Line(FormatInt(n))
    ensures !IsSpace(FormatInt(n)[0]) && !IsSpace(FormatInt(n)[|FormatInt(n)| - 1])
    ensures ReadInt(FormatInt(n)) == n
  {
    var s := FormatInt(n);
    assert forall i | 0 <= i < |s| :: s[i] == '-' || IsDigit(s[i]);
    NoSpaceIsLine(s);
    FormatIntRoundTrip(n);
  }

  lemma NoSpaceIsLine(s: string)
    requires s != "" && forall i | 0 <= i < |s| :: s[i] == '-' || IsDigit(s[i])
    ensures Line(s) && !IsSpace(s[0]) && !IsSpace(s[|s| - 1])
  {
    TrimmedIff(s);
  }

  lemma {:induction false} SplitParts(s: string, sep: char)
    ensures forall i | 0 <= i < |Split(s, sep)| :: sep !in Split(s, sep)[i]
    decreases |s|
  {
    var i := IndexOf(s, sep);
    if i == |s| { assert s[..i] == s; } else { SplitParts(s[i + 1..], sep); }
  }

  /** What is read for a text field is always a line. */
  lemma FieldIsLine(s: string, i: nat)
    ensures Line(Field(Split(s, '\n'), i))
  {
    var f := Split(s, '\n');
    SplitParts(s, '\n');
    if i < |f| {
      TrimIdempotent(f[i]);
      var t := TrimLeft(f[i]);
      assert forall c | c in TrimRight(t) :: c in t;
      assert forall c | c in t :: c in f[i];
    } else {
      TrimmedIff("");
    }
  }

  // ---- the round trip ----

  function Body(m: Meta): string {
    FormatInt(m.total) + "\n" + (m.mode + "\n" + (m.disk + "\n" + FormatInt(m.baseline)))
  }

  lemma MoveEnd(a: string, b: string)
    ensures a + "\n" + (b + "\n") == (a + "\n" + b) + "\n"
    ensures b != "" ==> (a + "\n" + b)[|a + "\n" + b| - 1] == b[|b| - 1]
  {}

  lemma PrintedBody(m: Meta)
    ensures Print(m) == m.version + "\n" + (Body(m) + "\n")
    ensures Body(m) != "" && !IsSpace(Body(m)[0]) && !IsSpace(Body(m)[|Body(m)| - 1])
  {}

  /** Apart from its first and last line ends, the printed text is not trimmed. */
  lemma TrimPrinted(m: Meta)
    requires m.version != "" ==> !IsSpace(m.version[0])
    ensures TrimSpace(Print(m)) == if m.version == "" then Body(m) else m.version + "\n" + Body(m)
  {
    PrintedBody(m);
    if m.version == "" {
      assert Print(m) == "\n" + Body(m) + "\n";
      TrimOf("\n", Body(m), "\n");
    } else {
      var y := m.version + "\n" + Body(m);
      MoveEnd(m.version, Body(m));
      assert y[0] == m.version[0];
      assert Print(m) == "" + y + "\n";
      TrimOf("", y, "\n");
    }
  }

  lemma SplitBody(m: Meta)
    requires '\n' !in m.mode && '\n' !in m.disk
    ensures Split(Body(m), '\n') == [FormatInt(m.total), m.mode, m.disk, FormatInt(m.baseline)]
  {
    IntLine(m.total);
    IntLine(m.baseline);
    SplitFour(FormatInt(m.total), m.mode, m.disk, FormatInt(m.baseline));
  }

  lemma SplitFour(a: string, b: string, c: string, d: string)
    requires '\n' !in a && '\n' !in b && '\n' !in c && '\n' !in d
    ensures Split(a + "\n" + (b + "\n" + (c + "\n" + d)), '\n') == [a, b, c, d]
  {
    SplitLast(d, '\n');
    SplitAt(c, '\n', d);
    SplitAt(b, '\n', c + "\n" + d);
    SplitAt(a, '\n', b + "\n" + (c + "\n" + d));
  }

  lemma RoundTripOfLines(m: Meta)
    requires m.version != "" && Line(m.version) && Line(m.mode) && Line(m.disk)
    ensures Read(Some(Print(m))) == m
  {
    TrimmedIff(m.version);
    TrimPrinted(m);
    SplitPrinted(m);
    ReadFields(Some(Print(m)), m);
  }

  lemma SplitPrinted(m: Meta)
    requires '\n' !in m.version && '\n' !in m.mode && '\n' !in m.disk
    ensures Split(m.version + "\n" + Body(m), '\n') == [m.version, FormatInt(m.total), m.mode, m.disk,
      FormatInt(m.baseline)]
  {
    SplitAt(m.version, '\n', Body(m));
    SplitBody(m);
  }

  lemma ReadFields(file: Option<string>, m: Meta)
    requires Split(ReadTrim(file), '\n') == [m.version, FormatInt(m.total), m.mode, m.disk, FormatInt(m.baseline)]
    requires Line(m.version) && Line(m.mode) && Line(m.disk)
    ensures Read(file) == m
  {
    IntLine(m.total);
    IntLine(m.baseline);
  }

  lemma EmptyVersionShifts(m: Meta)
    requires m.version == ""
    ensures Read(Some(Print(m))).version == FormatInt(m.total)
  {
    TrimPrinted(m);
    IntLine(m.total);
    SplitAt(FormatInt(m.total), '\n', m.mode + "\n" + (m.disk + "\n" + FormatInt(m.baseline)));
  }

  /** A printed record is read back as it was exactly if its version is not empty and its texts are
      lines that neither start nor end with a space; the disk and the mode may be empty, and every
      64-bit total and baseline is read back. */
  lemma RoundTripIff(m: Meta)
    ensures Read(Some(Print(m))) == m <==> m.version != "" && Line(m.version) && Line(m.mode) && Line(m.disk)
  {
    FieldIsLine(ReadTrim(Some(Print(m))), 0);
    FieldIsLine(ReadTrim(Some(Print(m))), 2);
    FieldIsLine(ReadTrim(Some(Print(m))), 3);
    if m.version == "" {
      EmptyVersionShifts(m);
      IntLine(m.total);
    } else if Line(m.version) && Line(m.mode) && Line(m.disk) {
      RoundTripOfLines(m);
    }
  }

  lemma PastTheEnd(f: seq<string>, i: nat)
    requires i >= |f|
    ensures Field(f, i) == "" && ReadInt(Field(f, i)) == 0
  {}

  lemma ReadTrimOfLine(file: Option<string>, line: string)
    requires Line(line) && file == (if line == "" then None else Some(line))
    ensures ReadTrim(file) == line && '\n' !in line
  {}

  lemma FieldOfLine(f: seq<string>, line: string)
    requires |f| == 1 && f[0] == line && Line(line)
    ensures Field(f, 0) == line
  {}

  lemma FieldsOf(file: Option<string>, f: seq<string>)
    requires f == Split(ReadTrim(file), '\n')
    ensures Read(file).version == Field(f, 0) && Read(file).total == ReadInt(Field(f, 1))
    ensures Read(file).mode == Field(f, 2) && Read(file).disk == Field(f, 3)
    ensures Read(file).baseline == ReadInt(Field(f, 4))
  {}

  /** A file that cannot be read is read as an empty record, and what a file with a single line does not have
      as empty or zero. */
  lemma MissingIsEmpty(file: Option<string>, line: string)
    requires Line(line) && file == (if line == "" then None else Some(line))
    ensures var m := Read(file);
      m.version == line && m.total == 0 && m.mode == "" && m.disk == "" && m.baseline == 0
  {
    var f := [line];
    ReadTrimOfLine(file, line);
    SplitLast(line, '\n');
    FieldOfLine(f, line);
    FieldsOf(file, f);
    forall i: nat | i >= 1 ensures Field(f, i) == "" && ReadInt(Field(f, i)) == 0 { PastTheEnd(f, i); }
  }
}
