# ssl-enum-ciphers report parser, modelled in Dafny

The program runs nmap's `ssl-enum-ciphers` script against a host and turns
the script's free-text report into a nested record. The heart of it is
`parseOutput`, a line-oriented scanner. Each TLS-version header line
("TLSv1.2:") opens a section. Field-header lines ("ciphers:",
"compressors:", "cipher preference: …", "warnings:") select which list later
lines go into. A "least strength" line carries a grade that belongs to the
whole port. `parseNmapOutput` runs this parser on every script output of a
port and copies four fixed version slots and the grade into the port's
record.

The model has four modules:

- `GoStrings` (`go_strings.dfy`): the parts of Go's `strings` package the
  parser uses. These are `Contains`, `TrimSpace` (through `TrimLeft` and
  `TrimRight`), `Replace(s, ":", "", -1)` as `RemoveAll`, and `Split` on a
  one-character separator, with `Join` as its inverse. Every function comes
  with lemmas that tie it to its partner or its meaning.
- `SslEnumCiphers` (`ssl_enum_ciphers.dfy`): the records, and a reference
  definition of one loop iteration. `Headers` is the header tests, `Fill`
  is the per-field filing, and `Dispatch`/`Step` combine the two. `Run`
  folds `Step` over a prefix of the lines, and `Parse` applies it to a whole
  output. The method `ParseOutput` is the loop of `parseOutput` with the
  same locals (`tlsVersions`, `strength`, `key`, `currentTLSVersion`). Its
  invariant says that the locals equal `Run` of the lines read so far, so it
  is proved equal to `Parse`.
- `SslEnumCiphersProperties` (`ssl_enum_ciphers_properties.dfy`): what the
  scanner guarantees, stated about `Step`, `Run` and `Parse`. It covers the
  header reset, the filing rules per field, locality, the grade, the single
  failure mode, and an invariant kept by every line. The invariant is that
  every stored entry is trimmed and holds none of the cue words ("TLSv",
  "least strength", "ciphers", "compressors", "cipher preference",
  "warnings"), so no header line and no strength line is ever stored.
- `NmapPorts` (`nmap_ports.dfy`): the per-port loop over script outputs.
  It is a reference fold `PortTLS` with the method `ScanPortScripts` proved
  equal to it, plus lemmas that the last script wins and that other labels
  are dropped.

Go's panic on `strings.Split(key, " ")[2]` is modelled as the result
`IndexOutOfRange(n)`, where `n` is the index of the line being scanned, and
it is propagated unchanged through the rest of the run and the port loop.

Some behaviours of the code worth knowing, all of them modelled:

- A repeated version label resets its record to empty (main.go:131). It
  does not keep appending to the old record.
- A "cipher preference" key with fewer than three space-separated tokens
  indexes past the end of the slice and panics (main.go:160). It does not
  yield an empty value.
- The header line "cipher preference: server X" gives the key
  "cipher preference server X", whose third token is "server", not "X".
- Tokens are split on a single space, not on runs of white space
  (main.go:160, 164).
- All colons are removed from a header, not only a trailing one
  (main.go:130, 138).
- A line that contains both "TLSv" and "least strength" is a version
  header, and it also sets the grade (main.go:128-132, 163-166).
- Blank lines under a list key are appended as empty strings.
- The preference is set from the header line itself and set again from
  every later plain line under the same key, always to the same value.

## Model

| member | source | states |
|---|---|---|
| SslEnumCiphers.ParseOutput | main.go:120-170 | the loop over the lines returns exactly `Parse(output)`, including the failure and the line where it happens |
| SslEnumCiphers.RunFailureSticks | main.go:159-160 | once a prefix of the lines has panicked, the run over all lines ends with that same panic |
| SslEnumCiphers.RunSnoc | main.go:127-167 | scanning one more line is one more loop step on the state after the prefix |
| SslEnumCiphersProperties.HeaderLabelKeepsTLSv | main.go:128-130 | the label taken from a version header still contains "TLSv", so it is never empty |
| SslEnumCiphersProperties.NormalizeKeepsWord | main.go:138 | trimming and removing colons keeps any colon-free word with non-space ends, and the result is non-empty |
| SslEnumCiphersProperties.FieldKeyKeepsCue | main.go:133-138 | a field-header line sets a non-empty key that still contains "ciphers" or "cipher preference" when the line did |
| SslEnumCiphersProperties.PreferenceKeyIsNoListKey | main.go:144-159 | a key containing "cipher preference" is none of the exact keys "ciphers", "compressors", "warnings" |
| SslEnumCiphersProperties.HeaderResets | main.go:128-132 | a version-header line selects its normalized label, replaces that label's record by an empty one even if it existed, clears the key, and files nothing; only a grade on it is read |
| SslEnumCiphersProperties.StepKeepsCursor | main.go:133-139 | any other line keeps the current version and sets the key to its normalized text exactly when it is a field header, and that new key is non-empty |
| SslEnumCiphersProperties.StepLocality | main.go:141-162 | a non-header line keeps the set of labels and every record other than the current one; with no version or no key set, it changes no record |
| SslEnumCiphersProperties.StepStrength | main.go:163-166 | the grade becomes the trimmed last space-separated token of a "least strength" line and is unchanged by any other line |
| SslEnumCiphersProperties.StrengthLineKeepsRecords | main.go:163-166 | a strength line that is no version header never fails and leaves every record unchanged |
| SslEnumCiphersProperties.StepRecord | main.go:141-162 | the current record after one line: the trimmed line is appended to one list exactly under the filing conditions of that list, or the preference becomes the trimmed third token of the key; nothing else changes |
| SslEnumCiphersProperties.StepFailsIff | main.go:159-160 | one step panics if and only if a line is filed under a "cipher preference" key with fewer than three tokens |
| SslEnumCiphersProperties.PreferenceIdempotent | main.go:159-160 | under a preference key a plain line sets exactly the preference, and a second plain line changes nothing more |
| SslEnumCiphersProperties.FillClean | main.go:143-162 | filing a line into a clean record gives a clean record, i.e. trimmed entries, no cipher naming "ciphers", no compressor "NULL" or naming "compressors", no warning naming "warnings" |
| SslEnumCiphersProperties.NormalizeKeepsCue | main.go:138 | a field cue that a line holds is still held by the key the line sets |
| SslEnumCiphersProperties.ListKeyHoldsOnlyItself | main.go:144-154 | the only field cue that one of the keys "ciphers", "compressors", "warnings" holds is that key itself |
| SslEnumCiphersProperties.FiledLineLacksCue | main.go:133-158 | a trimmed line filed under a list key, lacking that key, holds no field cue |
| SslEnumCiphersProperties.FiledLineHoldsNoCue | main.go:128-158 | a trimmed line that is appended to a list holds none of the six cue words |
| SslEnumCiphersProperties.FillHeaderFree | main.go:141-162 | filing a line that is no version header and no strength line, under the key it set when it is a field header, keeps every list free of cue words |
| SslEnumCiphersProperties.StepHeaderFree | main.go:127-167 | no line ever stores text holding a cue word in any record, so no header or strength line is ever stored |
| SslEnumCiphersProperties.StepInvariant | main.go:127-167 | every line keeps the loop invariant: the current label is in the map and every record is clean and free of cue words |
| SslEnumCiphersProperties.StepKeys | main.go:131 | the map gains exactly the label of a version-header line and no other key |
| SslEnumCiphersProperties.RunFacts | main.go:127-167 | after any prefix that did not panic, the invariant holds, the map's keys are exactly the labels of the header lines seen, and the grade is that of the last strength line (empty if none) |
| SslEnumCiphersProperties.RunWithoutHeaders | main.go:128-141 | lines without a version header never panic, leave the map empty and read only the grade |
| SslEnumCiphersProperties.ParseFacts | main.go:120-170 | the result of `parseOutput` holds only clean records in which no entry holds a cue word, under exactly the header labels, with the grade of the last strength line |
| SslEnumCiphersProperties.ParseWithoutVersions | main.go:120-170 | output without "TLSv" yields an empty map and the grade of its last strength line |
| SslEnumCiphersProperties.ParseEmpty | main.go:120-170 | empty output yields an empty map and an empty grade |
| NmapPorts.ScanPortScripts | main.go:104-111 | the loop over a port's script outputs returns exactly the fold `PortTLS`, and an empty list leaves the all-empty fields |
| NmapPorts.PortFailureSticks | main.go:104-105 | once the parse of one script has panicked, the port loop ends with that panic |
| NmapPorts.LastScriptWins | main.go:104-111 | when the loop does not panic, the port's fields are the projection of the last script's parse alone |
| NmapPorts.PortTLSOkIff | main.go:104-105 | the port loop succeeds if and only if the parse of every script succeeds |
| NmapPorts.ProjectSlots | main.go:106-110 | each of the four slots holds the record of its label, or the empty record when the label is absent, and the grade is carried over |
| NmapPorts.ProjectDropsOtherLabels | main.go:106-109 | a record under any label other than the four does not reach the port |
| NmapPorts.EmptyScriptGivesEmptyFields | main.go:104-111 | a port whose one script printed nothing gets all-empty fields |
| GoStrings.TrimLeft | main.go:130 | the result is no longer than the input and does not start with white space |
| GoStrings.TrimRight | main.go:130 | the result is no longer than the input, does not end with white space and starts where the input starts |
| GoStrings.TrimSpace | main.go:145 | the result is no longer than the input and neither starts nor ends with white space |
| GoStrings.TrimLeftDrops | main.go:130 | TrimLeft keeps a suffix and drops only white space |
| GoStrings.TrimRightDrops | main.go:130 | TrimRight keeps a prefix and drops only white space |
| GoStrings.TrimSpaceInfix | main.go:130 | the input is its trimmed form with only white space on both sides |
| GoStrings.TrimSpaceOfTrimmed | main.go:145 | a string with non-space ends is left unchanged |
| GoStrings.TrimSpaceIdempotent | main.go:145 | trimming twice is trimming once |
| GoStrings.RemoveAll | main.go:130 | removing all colons leaves no colon |
| GoStrings.RemoveAllKeeps | main.go:130 | a character is in the result if and only if it is in the input and is not the removed one |
| GoStrings.RemoveAllAppend | main.go:130 | removal distributes over concatenation |
| GoStrings.RemoveAllAbsent | main.go:130 | a string without the character is unchanged |
| GoStrings.Split | main.go:123 | there is always at least one piece and no piece holds the separator |
| GoStrings.JoinSplit | main.go:123 | joining the pieces of a split gives back the input |
| GoStrings.SplitJoin | main.go:160 | splitting the join of separator-free pieces gives back the pieces |
| GoStrings.ContainsTrimSpace | main.go:128-136 | a word with non-space ends that occurs in a line still occurs after trimming |
| GoStrings.ContainsRemoveAll | main.go:130 | a word without the removed character still occurs after removal |
| GoStrings.ContainsOfTrimSpace | main.go:145 | whatever occurs in a trimmed line occurs in the line |
| GoStrings.AbsentChar | main.go:128 | a word with a character the string lacks does not occur in it |
| GoStrings.ContainsSplitPiece | main.go:123-128 | a word in one line of the split output occurs in the output |

## Left out

- `main` (main.go:46-82) is not modelled: it runs the nmap scanner through a foreign library, applies a timeout and prints JSON. All of that is I/O.
- JSON rendering and the struct tags (main.go:13-44) are not modelled. The records keep only their fields.
- The host-level part of `parseNmapOutput` (main.go:84-103, 112-117) is not modelled. It covers the "No hosts found." print, addresses, hostnames and the `Port` fields copied from nmap's types, which are thin wrappers over library types the model cannot see. Only the per-port script loop (main.go:104-111) is modelled, as `NmapPorts.ScanPortScripts` over the list of script outputs.
- GoStrings.TrimSpace: treats only the ASCII white space of Go's `unicode.IsSpace` as space (space, tab, newline, carriage return, vertical tab, form feed). The Unicode spaces beyond ASCII are left out.
- Strings are modelled as `seq<char>` (Unicode scalar values), while Go strings are byte strings, so invalid UTF-8 input cannot be represented. For valid text this changes nothing, because every pattern and separator the parser uses is ASCII.
- GoStrings.RemoveAll: models `strings.Replace` only for deleting every occurrence of one character. That is the only way the parser calls it.
- GoStrings.Split: models `strings.Split` only for a one-character separator. That is the only way the parser calls it.
- The panic on `Split(key, " ")[2]` is an error result rather than a program abort. The port loop stops with that result, as a Go panic would stop `parseNmapOutput`.
