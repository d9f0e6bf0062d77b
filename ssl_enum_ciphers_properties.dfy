/**
 * What the scanner of main.go guarantees, stated about the reference
 * `Step` / `Run` / `Parse` of module SslEnumCiphers (and so, through the
 * contract of `ParseOutput`, about the loop itself).
 */
module SslEnumCiphersProperties {
  import opened GoStrings
  import opened SslEnumCiphers

  /** A string with no white space at either end. */
  predicate Trimmed(s: string)
  {
    TrimSpace(s) == s
  }

  /**
   * What filing alone guarantees of a record: trimmed entries only, no
   * cipher naming "ciphers", no compressor "NULL" or naming "compressors",
   * no warning naming "warnings". That no header line is stored at all
   * needs the header tests too; see `HeaderFree`.
   */
  predicate CleanRecord(d: CipherData)
  {
    (forall x :: x in d.ciphers ==> Trimmed(x) && !Contains(x, "ciphers"))
    && (forall x :: x in d.compressors ==> Trimmed(x) && x != "NULL" && !Contains(x, "compressors"))
    && (forall x :: x in d.warnings ==> Trimmed(x) && !Contains(x, "warnings"))
  }

  /** The words that make a line a header or a strength line. */
  predicate IsCue(w: string)
  {
    w == "TLSv" || w == "least strength" || IsFieldCue(w)
  }

  /** The words that make a line a field header. */
  predicate IsFieldCue(w: string)
  {
    w == "ciphers" || w == "compressors" || w == "cipher preference" || w == "warnings"
  }

  /** The keys under which lines are appended to a list. */
  predicate IsListKey(k: string)
  {
    k == "ciphers" || k == "compressors" || k == "warnings"
  }

  /** A string holding none of the header and strength cues. */
  predicate HoldsNoCue(x: string)
  {
    !Contains(x, "TLSv") && !Contains(x, "least strength")
    && !Contains(x, "ciphers") && !Contains(x, "compressors")
    && !Contains(x, "cipher preference") && !Contains(x, "warnings")
  }

  /**
   * No list of the record holds a cue, so no header line and no strength
   * line is stored in any of them.
   */
  predicate HeaderFree(d: CipherData)
  {
    (forall x :: x in d.ciphers ==> HoldsNoCue(x))
    && (forall x :: x in d.compressors ==> HoldsNoCue(x))
    && (forall x :: x in d.warnings ==> HoldsNoCue(x))
  }

  /** What holds of the loop's locals between two lines. */
  predicate Invariant(c: Cursor)
  {
    (c.current != "" ==> c.current in c.versions)
    && (forall v :: v in c.versions ==> CleanRecord(c.versions[v]))
    && (forall v :: v in c.versions ==> HeaderFree(c.versions[v]))
  }

  /** The labels of the version-header lines among `lines`. */
  function HeaderLabels(lines: seq<string>): set<string>
    decreases |lines|
  {
    if lines == [] then {}
    else
      var last := lines[|lines| - 1];
      HeaderLabels(lines[..|lines| - 1]) + (if IsVersionHeader(last) then {Normalize(last)} else {})
  }

  /** The grade of the last strength line among `lines`; "" when there is none. */
  function LastStrength(lines: seq<string>): string
    decreases |lines|
  {
    if lines == [] then ""
    else if IsStrengthLine(lines[|lines| - 1]) then StrengthOf(lines[|lines| - 1])
    else LastStrength(lines[..|lines| - 1])
  }

  // ---------------------------------------------------------------------
  // Classification of lines

  /** A header label keeps the "TLSv" that made it a header, so it is never "". */
  lemma HeaderLabelKeepsTLSv(line: string)
    requires IsVersionHeader(line)
    ensures Contains(Normalize(line), "TLSv") && Normalize(line) != ""
  {
    ContainsTrimSpace(line, "TLSv");
    ContainsRemoveAll(TrimSpace(line), "TLSv", ':');
  }

  /** A colon-free word with non-space ends survives normalization. */
  lemma NormalizeKeepsWord(line: string, w: string)
    requires Contains(line, w) && w != [] && !IsSpace(w[0]) && !IsSpace(w[|w| - 1]) && ':' !in w
    ensures Contains(Normalize(line), w) && Normalize(line) != ""
  {
    ContainsTrimSpace(line, w);
    ContainsRemoveAll(TrimSpace(line), w, ':');
  }

  /** A field-header line sets a key that keeps its cue, so the key is never "". */
  lemma FieldKeyKeepsCue(line: string)
    requires IsFieldHeader(line)
    ensures Normalize(line) != ""
    ensures Contains(line, "ciphers") ==> Contains(Normalize(line), "ciphers")
    ensures Contains(line, "cipher preference") ==> Contains(Normalize(line), "cipher preference")
  {
    if Contains(line, "ciphers") {
      NormalizeKeepsWord(line, "ciphers");
    } else if Contains(line, "compressors") {
      NormalizeKeepsWord(line, "compressors");
    } else if Contains(line, "cipher preference") {
      NormalizeKeepsWord(line, "cipher preference");
    } else {
      NormalizeKeepsWord(line, "warnings");
    }
    if Contains(line, "cipher preference") {
      NormalizeKeepsWord(line, "cipher preference");
    }
  }

  /** A field cue that a line holds is kept in the key the line sets. */
  lemma NormalizeKeepsCue(line: string, w: string)
    requires IsFieldCue(w)
    ensures Contains(line, w) ==> Contains(Normalize(line), w)
  {
    if Contains(line, w) {
      NormalizeKeepsWord(line, w);
    }
  }

  /** The only field cue a list key holds is the key itself. */
  lemma ListKeyHoldsOnlyItself(k: string, w: string)
    requires IsListKey(k) && IsFieldCue(w)
    ensures Contains(k, w) ==> w == k
  {
    AbsentChar("compressors", "ciphers", 1);
    AbsentChar("compressors", "warnings", 0);
    AbsentChar("warnings", "ciphers", 0);
  }

  /**
   * A line filed under list key `k` that does not hold `k` holds no field
   * cue `w`: had it held one, it would have been a field header whose key
   * holds `w`, and the only cue a list key holds is itself.
   */
  lemma FiledLineLacksCue(line: string, k: string, w: string)
    requires IsListKey(k) && IsFieldCue(w) && !Contains(TrimSpace(line), k)
    requires IsFieldHeader(line) ==> k == Normalize(line)
    ensures !Contains(TrimSpace(line), w)
  {
    ContainsOfTrimSpace(line, w);
    NormalizeKeepsCue(line, w);
    ListKeyHoldsOnlyItself(k, w);
  }

  /** A line filed into a list holds no cue at all. */
  lemma FiledLineHoldsNoCue(line: string, k: string)
    requires IsListKey(k) && !Contains(TrimSpace(line), k)
    requires !IsVersionHeader(line) && !IsStrengthLine(line)
    requires IsFieldHeader(line) ==> k == Normalize(line)
    ensures HoldsNoCue(TrimSpace(line))
  {
    ContainsOfTrimSpace(line, "TLSv");
    ContainsOfTrimSpace(line, "least strength");
    FiledLineLacksCue(line, k, "ciphers");
    FiledLineLacksCue(line, k, "compressors");
    FiledLineLacksCue(line, k, "cipher preference");
    FiledLineLacksCue(line, k, "warnings");
  }

  /** A key naming "cipher preference" is none of the three exact keys. */
  lemma PreferenceKeyIsNoListKey(key: string)
    requires Contains(key, "cipher preference")
    ensures key != "ciphers" && key != "compressors" && key != "warnings"
  {
    var i :| 0 <= i <= |key| - |"cipher preference"| && OccursAt(key, "cipher preference", i);
  }

  // ---------------------------------------------------------------------
  // One line

  /**
   * A version-header line selects its label, resets that label's record to
   * empty even if the label was seen before, clears the key, and files no
   * data. Only a grade on the same line is still read.
   */
  lemma HeaderResets(c: Cursor, line: string, n: nat)
    requires IsVersionHeader(line)
    ensures Step(c, line, n) == Ok(Cursor(
      c.versions[Normalize(line) := EmptyData],
      if IsStrengthLine(line) then StrengthOf(line) else c.strength,
      "",
      Normalize(line)))
  {
  }

  /**
   * Any other line keeps the current version; it sets the key to its
   * normalized text when it names a field and keeps the key otherwise.
   */
  lemma StepKeepsCursor(c: Cursor, line: string, n: nat)
    requires !IsVersionHeader(line) && Step(c, line, n).Ok?
    ensures Step(c, line, n).value.current == c.current
    ensures Step(c, line, n).value.key == if IsFieldHeader(line) then Normalize(line) else c.key
    ensures IsFieldHeader(line) ==> Step(c, line, n).value.key != ""
  {
    if IsFieldHeader(line) {
      FieldKeyKeepsCue(line);
    }
  }

  /**
   * A line other than a version header changes at most the record of the
   * current version: the labels stay the same and every other record is
   * unchanged. With no version set, or no key set, nothing is recorded.
   */
  lemma StepLocality(c: Cursor, line: string, n: nat)
    requires Invariant(c) && !IsVersionHeader(line) && Step(c, line, n).Ok?
    ensures Step(c, line, n).value.versions.Keys == c.versions.Keys
    ensures forall v :: v in c.versions && v != c.current ==>
              Step(c, line, n).value.versions[v] == c.versions[v]
    ensures c.current == "" || Step(c, line, n).value.key == "" ==>
              Step(c, line, n).value.versions == c.versions
  {
  }

  /**
   * The grade is the last space-separated token of the line when it names
   * "least strength", and unchanged otherwise.
   */
  lemma StepStrength(c: Cursor, line: string, n: nat)
    requires Step(c, line, n).Ok?
    ensures Step(c, line, n).value.strength == if IsStrengthLine(line) then StrengthOf(line) else c.strength
  {
  }

  /** A strength line that is no version header leaves every record as it was. */
  lemma StrengthLineKeepsRecords(c: Cursor, line: string, n: nat)
    requires IsStrengthLine(line) && !IsVersionHeader(line)
    ensures Step(c, line, n).Ok?
    ensures Step(c, line, n).value.versions == c.versions
    ensures Step(c, line, n).value.strength == StrengthOf(line)
  {
  }

  /**
   * How one line, not a version header, changes the record of the current
   * version. With `k` the key after the line and `t` the trimmed line, and
   * the line no strength line: `t` is appended to the ciphers when `k` is
   * exactly "ciphers" and `t` does not name "ciphers"; to the compressors
   * when `k` is exactly "compressors" and `t` is neither "NULL" nor names
   * "compressors"; to the warnings when `k` is exactly "warnings" and `t`
   * does not name "warnings"; and the preference becomes the third token
   * of `k` when `k` names "cipher preference". Nothing else changes.
   */
  lemma StepRecord(c: Cursor, line: string, n: nat)
    requires Invariant(c) && !IsVersionHeader(line) && c.current != ""
    requires Step(c, line, n).Ok?
    ensures
      var c' := Step(c, line, n).value;
      var was, now := c.versions[c.current], c'.versions[c.current];
      var k, t, filed := c'.key, TrimSpace(line), !IsStrengthLine(line);
      && now.ciphers == was.ciphers
           + (if filed && k == "ciphers" && !Contains(t, "ciphers") then [t] else [])
      && now.compressors == was.compressors
           + (if filed && k == "compressors" && t != "NULL" && !Contains(t, "compressors") then [t] else [])
      && now.warnings == was.warnings
           + (if filed && k == "warnings" && !Contains(t, "warnings") then [t] else [])
      && (filed && Contains(k, "cipher preference") ==> |Split(k, ' ')| >= 3)
      && now.preference == if filed && Contains(k, "cipher preference")
                           then TrimSpace(Split(k, ' ')[2]) else was.preference
  {
    var c1 := Headers(c, line);
    if c1.key != "" && !IsStrengthLine(line) && Contains(c1.key, "cipher preference") {
      PreferenceKeyIsNoListKey(c1.key);
    }
  }

  /**
   * The one failure: a line is filed while the key names "cipher
   * preference" and the key has fewer than three space-separated tokens,
   * so that taking the third one indexes past the end.
   */
  lemma StepFailsIff(c: Cursor, line: string, n: nat)
    ensures var c1 := Headers(c, line);
      Step(c, line, n).IndexOutOfRange? <==>
        c1.key != "" && c1.current != "" && !IsStrengthLine(line)
        && Contains(c1.key, "cipher preference") && |Split(c1.key, ' ')| < 3
  {
    var c1 := Headers(c, line);
    if c1.key != "" && Contains(c1.key, "cipher preference") {
      PreferenceKeyIsNoListKey(c1.key);
    }
  }

  /**
   * Under a "cipher preference" key, a plain line (no header, no grade)
   * sets the preference and nothing else, and a second plain line changes
   * nothing more: the assignment is idempotent.
   */
  lemma PreferenceIdempotent(c: Cursor, line: string, line2: string, n: nat, n2: nat)
    requires Invariant(c) && c.current != ""
    requires Contains(c.key, "cipher preference") && |Split(c.key, ' ')| >= 3
    requires !IsVersionHeader(line) && !IsFieldHeader(line) && !IsStrengthLine(line)
    requires !IsVersionHeader(line2) && !IsFieldHeader(line2) && !IsStrengthLine(line2)
    ensures Step(c, line, n).Ok?
    ensures Step(c, line, n).value == c.(versions := c.versions[c.current :=
              c.versions[c.current].(preference := TrimSpace(Split(c.key, ' ')[2]))])
    ensures Step(Step(c, line, n).value, line2, n2) == Step(c, line, n)
  {
    PreferenceKeyIsNoListKey(c.key);
    var c' := Step(c, line, n).value;
    var d := c'.versions[c.current];
    assert d.(preference := TrimSpace(Split(c.key, ' ')[2])) == d;
    assert c'.versions[c.current := d] == c'.versions;
  }

  /** A record filled from a clean record is clean. */
  lemma FillClean(data: CipherData, key: string, line: string, n: nat)
    requires CleanRecord(data) && Fill(data, key, line, n).Ok?
    ensures CleanRecord(Fill(data, key, line, n).value)
  {
    TrimSpaceIdempotent(line);
  }

  /**
   * Filing a line that is no version header and no strength line, under
   * the key it set if it is a field header, keeps a record header-free.
   */
  lemma FillHeaderFree(data: CipherData, key: string, line: string, n: nat)
    requires HeaderFree(data) && !IsVersionHeader(line) && !IsStrengthLine(line)
    requires IsFieldHeader(line) ==> key == Normalize(line)
    requires Fill(data, key, line, n).Ok?
    ensures HeaderFree(Fill(data, key, line, n).value)
  {
    if IsListKey(key) && !Contains(TrimSpace(line), key) {
      FiledLineHoldsNoCue(line, key);
    }
  }

  /** No line ever stores a header or strength line in any record. */
  lemma StepHeaderFree(c: Cursor, line: string, n: nat)
    requires forall v :: v in c.versions ==> HeaderFree(c.versions[v])
    requires Step(c, line, n).Ok?
    ensures forall v :: v in Step(c, line, n).value.versions ==> HeaderFree(Step(c, line, n).value.versions[v])
  {
    var c1 := Headers(c, line);
    assert forall v :: v in c1.versions ==> HeaderFree(c1.versions[v]) by {
      assert HeaderFree(EmptyData);
    }
    if c1.key != "" && c1.current != "" && !IsStrengthLine(line) {
      FillHeaderFree(Lookup(c1.versions, c1.current), c1.key, line, n);
    }
  }

  /** Every line keeps the invariant. */
  lemma StepInvariant(c: Cursor, line: string, n: nat)
    requires Invariant(c) && Step(c, line, n).Ok?
    ensures Invariant(Step(c, line, n).value)
  {
    var c1 := Headers(c, line);
    assert Invariant(c1) by {
      assert forall v :: v in c1.versions ==> CleanRecord(c1.versions[v]) by {
        assert CleanRecord(EmptyData);
      }
    }
    if c1.key != "" && c1.current != "" && !IsStrengthLine(line) {
      FillClean(Lookup(c1.versions, c1.current), c1.key, line, n);
    }
    StepHeaderFree(c, line, n);
  }

  /** The labels the loop has seen are exactly those of the header lines. */
  lemma StepKeys(c: Cursor, line: string, n: nat)
    requires Invariant(c) && Step(c, line, n).Ok?
    ensures Step(c, line, n).value.versions.Keys
            == c.versions.Keys + (if IsVersionHeader(line) then {Normalize(line)} else {})
  {
  }

  // ---------------------------------------------------------------------
  // A whole run

  /**
   * After any prefix that did not fail: the invariant holds, the labels of
   * the map are exactly the labels of the header lines seen, and the grade
   * is that of the last strength line seen ("" if none).
   */
  lemma {:induction false} RunFacts(lines: seq<string>)
    requires Run(lines).Ok?
    ensures Invariant(Run(lines).value)
    ensures Run(lines).value.versions.Keys == HeaderLabels(lines)
    ensures Run(lines).value.strength == LastStrength(lines)
    decreases |lines|
  {
    if lines != [] {
      var init := lines[..|lines| - 1];
      var last := lines[|lines| - 1];
      RunFacts(init);
      var c := Run(init).value;
      StepInvariant(c, last, |lines| - 1);
      StepKeys(c, last, |lines| - 1);
      StepStrength(c, last, |lines| - 1);
    }
  }

  /**
   * Without a version header nothing is ever filed, so the run cannot
   * fail; the map stays empty and only the grade is read.
   */
  lemma {:induction false} RunWithoutHeaders(lines: seq<string>)
    requires forall k :: 0 <= k < |lines| ==> !IsVersionHeader(lines[k])
    ensures Run(lines).Ok?
    ensures Run(lines).value.versions == map[]
    ensures Run(lines).value.current == ""
    ensures Run(lines).value.strength == LastStrength(lines)
    decreases |lines|
  {
    if lines != [] {
      var init := lines[..|lines| - 1];
      assert forall k :: 0 <= k < |init| ==> !IsVersionHeader(init[k]) by {
        assert forall k :: 0 <= k < |init| ==> init[k] == lines[k];
      }
      RunWithoutHeaders(init);
    }
  }

  // ---------------------------------------------------------------------
  // parseOutput

  /**
   * What `parseOutput` returns when it does not panic: every record is
   * clean and header-free, the labels are those of the header lines, and
   * the grade is the last one.
   */
  lemma ParseFacts(output: string)
    requires Parse(output).Ok?
    ensures forall v :: v in Parse(output).value.versions ==>
              CleanRecord(Parse(output).value.versions[v])
    ensures forall v :: v in Parse(output).value.versions ==>
              HeaderFree(Parse(output).value.versions[v])
    ensures Parse(output).value.versions.Keys == HeaderLabels(Split(output, '\n'))
    ensures Parse(output).value.strength == LastStrength(Split(output, '\n'))
  {
    RunFacts(Split(output, '\n'));
  }

  /** Output without "TLSv" yields no sections, and only the grade is read. */
  lemma ParseWithoutVersions(output: string)
    requires !Contains(output, "TLSv")
    ensures Parse(output) == Ok(Parsed(map[], LastStrength(Split(output, '\n'))))
  {
    var lines := Split(output, '\n');
    forall k | 0 <= k < |lines| ensures !IsVersionHeader(lines[k]) {
      if IsVersionHeader(lines[k]) {
        ContainsSplitPiece(output, '\n', k, "TLSv");
      }
    }
    RunWithoutHeaders(lines);
  }

  /** Empty output yields no sections and an empty grade. */
  lemma ParseEmpty()
    ensures Parse("") == Ok(Parsed(map[], ""))
  {
    assert Split("", '\n') == [""];
    assert !Contains("", "least strength");
    assert !Contains("", "TLSv");
    assert Run([""]) == Step(Initial, "", 0);
  }
}
