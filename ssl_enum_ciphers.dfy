/**
 * The scanner `parseOutput` of main.go: it reads the text report of nmap's
 * `ssl-enum-ciphers` script line by line and builds a map from TLS-version
 * label to the cipher data of that section, plus one overall
 * "least strength" grade.
 *
 * `Step` and `Run` are the reference: one line of the loop body, and the
 * loop over a prefix of the lines. `ParseOutput` is the loop itself, with
 * the same local variables as the Go code, proved equal to `Parse`.
 */
module SslEnumCiphers {
  import opened GoStrings

  /** `CipherData`: what one TLS-version section lists. */
  datatype CipherData = CipherData(
    ciphers: seq<string>,
    compressors: seq<string>,
    preference: string,
    warnings: seq<string>)

  /** Go's zero value `CipherData{}`. */
  const EmptyData := CipherData([], [], "", [])

  /** Go's `m[k]`: the zero value when `k` is absent. */
  function Lookup(m: map<string, CipherData>, k: string): CipherData
  {
    if k in m then m[k] else EmptyData
  }

  /**
   * The end of a run. Indexing past the end of a slice panics in Go; the
   * model reports it with the index of the line being scanned.
   */
  datatype Outcome<T> = Ok(value: T) | IndexOutOfRange(line: nat)

  /** What `parseOutput` returns: the version map and the strength grade. */
  datatype Parsed = Parsed(versions: map<string, CipherData>, strength: string)

  /** The locals of the loop: `tlsVersions`, `strength`, `key`, `currentTLSVersion`. */
  datatype Cursor = Cursor(
    versions: map<string, CipherData>,
    strength: string,
    key: string,
    current: string)

  /** The locals before the first line. */
  const Initial := Cursor(map[], "", "", "")

  /** `strings.Replace(strings.TrimSpace(line), ":", "", -1)`. */
  function Normalize(line: string): string
  {
    RemoveAll(TrimSpace(line), ':')
  }

  /** A line that opens a TLS-version section. */
  predicate IsVersionHeader(line: string)
  {
    Contains(line, "TLSv")
  }

  /** A line that names the field the following lines belong to. */
  predicate IsFieldHeader(line: string)
  {
    Contains(line, "ciphers") || Contains(line, "compressors")
    || Contains(line, "cipher preference") || Contains(line, "warnings")
  }

  /** A line that carries the overall grade. */
  predicate IsStrengthLine(line: string)
  {
    Contains(line, "least strength")
  }

  /** The grade on a strength line: its last space-separated token, trimmed. */
  function StrengthOf(line: string): string
  {
    var l := Split(line, ' ');
    TrimSpace(l[|l| - 1])
  }

  /** The cursor once the header tests of one line have been applied. */
  function Headers(c: Cursor, line: string): Cursor
  {
    if IsVersionHeader(line) then
      var v := Normalize(line);
      c.(versions := c.versions[v := EmptyData], key := "", current := v)
    else if IsFieldHeader(line) then
      c.(key := Normalize(line))
    else c
  }

  /**
   * The record `data` once one data line has been filed under `key`; the
   * cipher-preference case fails when `key` has fewer than three
   * space-separated tokens.
   */
  function Fill(data: CipherData, key: string, line: string, n: nat): Outcome<CipherData>
  {
    var t := TrimSpace(line);
    if key == "ciphers" then
      Ok(if !Contains(t, "ciphers") then data.(ciphers := data.ciphers + [t]) else data)
    else if key == "compressors" then
      Ok(if t != "NULL" && !Contains(t, "compressors")
         then data.(compressors := data.compressors + [t]) else data)
    else if key == "warnings" then
      Ok(if !Contains(t, "warnings") then data.(warnings := data.warnings + [t]) else data)
    else if Contains(key, "cipher preference") then
      var parts := Split(key, ' ');
      if |parts| < 3 then IndexOutOfRange(n)
      else Ok(data.(preference := TrimSpace(parts[2])))
    else Ok(data)
  }

  /** One iteration of the loop, on line number `n`. */
  function Step(c: Cursor, line: string, n: nat): Outcome<Cursor>
  {
    Dispatch(Headers(c, line), line, n)
  }

  /** The second half of an iteration: file the line, or read the grade off it. */
  function Dispatch(c1: Cursor, line: string, n: nat): Outcome<Cursor>
  {
    if c1.key != "" && c1.current != "" && !IsStrengthLine(line) then
      match Fill(Lookup(c1.versions, c1.current), c1.key, line, n)
      case IndexOutOfRange(m) => IndexOutOfRange(m)
      case Ok(data) => Ok(c1.(versions := c1.versions[c1.current := data]))
    else if IsStrengthLine(line) then
      Ok(c1.(strength := StrengthOf(line)))
    else
      Ok(c1)
  }

  /** The loop run over `lines`, from the initial cursor; it stops at the first failure. */
  function Run(lines: seq<string>): Outcome<Cursor>
    decreases |lines|
  {
    if lines == [] then Ok(Initial)
    else
      match Run(lines[..|lines| - 1])
      case IndexOutOfRange(m) => IndexOutOfRange(m)
      case Ok(c) => Step(c, lines[|lines| - 1], |lines| - 1)
  }

  /** `parseOutput(output)` as a function of its input. */
  function Parse(output: string): Outcome<Parsed>
  {
    match Run(Split(output, '\n'))
    case IndexOutOfRange(m) => IndexOutOfRange(m)
    case Ok(c) => Ok(Parsed(c.versions, c.strength))
  }

  /** Once a prefix has failed, every longer run fails the same way. */
  lemma {:induction false} RunFailureSticks(lines: seq<string>, i: nat)
    requires i <= |lines| && Run(lines[..i]).IndexOutOfRange?
    ensures Run(lines) == Run(lines[..i])
    decreases |lines| - i
  {
    if i < |lines| {
      assert lines[..i + 1][..i] == lines[..i];
      RunFailureSticks(lines, i + 1);
    } else {
      assert lines[..i] == lines;
    }
  }

  /** The run over one more line is one more step. */
  lemma RunSnoc(lines: seq<string>, i: nat)
    requires i < |lines|
    ensures Run(lines[..i + 1]) == match Run(lines[..i])
                                   case IndexOutOfRange(m) => IndexOutOfRange(m)
                                   case Ok(c) => Step(c, lines[i], i)
  {
    assert lines[..i + 1][..i] == lines[..i];
  }

  /** `parseOutput`: the loop of main.go over the lines of `output`. */
  method ParseOutput(output: string) returns (r: Outcome<Parsed>)
    ensures r == Parse(output)
  {
    var tlsVersions: map<string, CipherData> := map[];
    var strength := "";
    var lines := Split(output, '\n');
    var key := "";
    var currentTLSVersion := "";
    var i := 0;
    assert lines[..i] == [];
    while i < |lines|
      invariant i <= |lines|
      invariant Run(lines[..i]) == Ok(Cursor(tlsVersions, strength, key, currentTLSVersion))
    {
      var line := lines[i];
      ghost var before := Cursor(tlsVersions, strength, key, currentTLSVersion);
      RunSnoc(lines, i);
      if Contains(line, "TLSv") {
        currentTLSVersion := RemoveAll(TrimSpace(line), ':');
        tlsVersions := tlsVersions[currentTLSVersion := CipherData([], [], "", [])];
        key := "";
      } else if Contains(line, "ciphers") || Contains(line, "compressors")
             || Contains(line, "cipher preference") || Contains(line, "warnings") {
        key := RemoveAll(TrimSpace(line), ':');
      }
      ghost var headed := Cursor(tlsVersions, strength, key, currentTLSVersion);
      assert headed == Headers(before, line);

      if key != "" && currentTLSVersion != "" && !Contains(line, "least strength") {
        var data := Lookup(tlsVersions, currentTLSVersion);
        if key == "ciphers" {
          var c := TrimSpace(line);
          if !Contains(c, "ciphers") {
            data := data.(ciphers := data.ciphers + [c]);
          }
        } else if key == "compressors" {
          var c := TrimSpace(line);
          if c != "NULL" && !Contains(c, "compressors") {
            data := data.(compressors := data.compressors + [c]);
          }
        } else if key == "warnings" {
          var c := TrimSpace(line);
          if !Contains(c, "warnings") {
            data := data.(warnings := data.warnings + [c]);
          }
        } else if Contains(key, "cipher preference") {
          var parts := Split(key, ' ');
          if |parts| < 3 {
            RunFailureSticks(lines, i + 1);
            return IndexOutOfRange(i);
          }
          data := data.(preference := TrimSpace(parts[2]));
        }
        tlsVersions := tlsVersions[currentTLSVersion := data];
        assert Dispatch(headed, line, i) == Ok(Cursor(tlsVersions, strength, key, currentTLSVersion));
      } else if Contains(line, "least strength") {
        var l := Split(line, ' ');
        strength := TrimSpace(l[|l| - 1]);
        assert Dispatch(headed, line, i) == Ok(Cursor(tlsVersions, strength, key, currentTLSVersion));
      } else {
        assert Dispatch(headed, line, i) == Ok(Cursor(tlsVersions, strength, key, currentTLSVersion));
      }
      assert Step(before, line, i) == Ok(Cursor(tlsVersions, strength, key, currentTLSVersion));
      i := i + 1;
    }
    assert lines[..i] == lines;
    r := Ok(Parsed(tlsVersions, strength));
  }
}
