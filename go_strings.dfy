/**
 * Models of the few functions of Go's `strings` package that the scanner
 * uses, on `string` (= `seq<char>`):
 *   strings.Contains, strings.TrimSpace, strings.Replace(s, ":", "", -1)
 *   and strings.Split with a one-character separator.
 * TrimSpace only knows the ASCII white-space characters.
 */
module GoStrings {

  /** `strings.Contains(s, sub)`: `sub` occurs in `s` as a contiguous block. */
  predicate Contains(s: string, sub: string)
  {
    exists i :: 0 <= i <= |s| - |sub| && OccursAt(s, sub, i)
  }

  /** `sub` occurs in `s` starting at index `i`. */
  predicate OccursAt(s: string, sub: string, i: int)
  {
    0 <= i <= |s| - |sub| && s[i..i + |sub|] == sub
  }

  /** The white-space set of Go's `unicode.IsSpace`, restricted to ASCII. */
  predicate IsSpace(c: char)
  {
    c == ' ' || c == '\t' || c == '\n' || c == '\r' || c == '\U{000B}' || c == '\U{000C}'
  }

  /** Drops leading white space. */
  function TrimLeft(s: string): (r: string)
    ensures |r| <= |s|
    ensures r == [] || !IsSpace(r[0])
    decreases |s|
  {
    if s != [] && IsSpace(s[0]) then TrimLeft(s[1..]) else s
  }

  /** Drops trailing white space. */
  function TrimRight(s: string): (r: string)
    ensures |r| <= |s|
    ensures r == [] || !IsSpace(r[|r| - 1])
    ensures r != [] ==> r[0] == s[0]
    decreases |s|
  {
    if s != [] && IsSpace(s[|s| - 1]) then TrimRight(s[..|s| - 1]) else s
  }

  /**
   * `strings.TrimSpace(s)`: `s` with the white space at both ends cut off.
   * The result starts and ends with a non-space; TrimSpaceInfix says that
   * what is cut off is white space only.
   */
  function TrimSpace(s: string): (r: string)
    ensures |r| <= |s|
    ensures r == [] || (!IsSpace(r[0]) && !IsSpace(r[|r| - 1]))
  {
    TrimRight(TrimLeft(s))
  }

  /** TrimLeft keeps a suffix of `s` and drops white space only. */
  lemma {:induction false} TrimLeftDrops(s: string)
    ensures TrimLeft(s) == s[|s| - |TrimLeft(s)|..]
    ensures forall k :: 0 <= k < |s| - |TrimLeft(s)| ==> IsSpace(s[k])
    decreases |s|
  {
    if s != [] && IsSpace(s[0]) {
      TrimLeftDrops(s[1..]);
    }
  }

  /** TrimRight keeps a prefix of `s` and drops white space only. */
  lemma {:induction false} TrimRightDrops(s: string)
    ensures TrimRight(s) == s[..|TrimRight(s)|]
    ensures forall k :: |TrimRight(s)| <= k < |s| ==> IsSpace(s[k])
    decreases |s|
  {
    if s != [] && IsSpace(s[|s| - 1]) {
      TrimRightDrops(s[..|s| - 1]);
    }
  }

  /** `s` is TrimSpace(s) placed somewhere with only white space around it. */
  lemma TrimSpaceInfix(s: string)
    ensures exists i :: PaddedAt(s, TrimSpace(s), i)
  {
    var t := TrimLeft(s);
    TrimLeftDrops(s);
    TrimRightDrops(t);
    assert PaddedAt(s, TrimSpace(s), |s| - |t|);
  }

  /** `s` is `r` placed at index `i` with only white space around it. */
  predicate PaddedAt(s: string, r: string, i: int)
  {
    OccursAt(s, r, i)
    && (forall k :: 0 <= k < i ==> IsSpace(s[k]))
    && (forall k :: i + |r| <= k < |s| ==> IsSpace(s[k]))
  }

  /** A string with no white space at either end is left as it is by TrimSpace. */
  lemma TrimSpaceOfTrimmed(s: string)
    requires s == [] || (!IsSpace(s[0]) && !IsSpace(s[|s| - 1]))
    ensures TrimSpace(s) == s
  {
    assert TrimLeft(s) == s;
  }

  /** TrimSpace is idempotent. */
  lemma TrimSpaceIdempotent(s: string)
    ensures TrimSpace(TrimSpace(s)) == TrimSpace(s)
  {
    TrimSpaceOfTrimmed(TrimSpace(s));
  }

  /**
   * `strings.Replace(s, string(c), "", -1)`: every occurrence of `c` is
   * removed and all other characters are kept, in order.
   */
  function RemoveAll(s: string, c: char): (r: string)
    ensures c !in r
    decreases |s|
  {
    if s == [] then []
    else
      assert s == [s[0]] + s[1..];
      (if s[0] == c then [] else [s[0]]) + RemoveAll(s[1..], c)
  }

  /** Exactly the characters of `s` other than `c` survive. */
  lemma {:induction false} RemoveAllKeeps(s: string, c: char, x: char)
    ensures x in RemoveAll(s, c) <==> x in s && x != c
    decreases |s|
  {
    if s != [] {
      RemoveAllKeeps(s[1..], c, x);
      assert s == [s[0]] + s[1..];
    }
  }

  /** Removing a character distributes over concatenation. */
  lemma {:induction false} RemoveAllAppend(a: string, b: string, c: char)
    ensures RemoveAll(a + b, c) == RemoveAll(a, c) + RemoveAll(b, c)
    decreases |a|
  {
    if a == [] {
      assert a + b == b;
    } else {
      assert (a + b)[1..] == a[1..] + b;
      RemoveAllAppend(a[1..], b, c);
    }
  }

  /** A string without `c` is left as it is. */
  lemma {:induction false} RemoveAllAbsent(s: string, c: char)
    requires c !in s
    ensures RemoveAll(s, c) == s
    decreases |s|
  {
    if s != [] {
      RemoveAllAbsent(s[1..], c);
    }
  }

  /**
   * `strings.Split(s, string(sep))`: the pieces of `s` between occurrences
   * of `sep`. There is one piece more than there are separators (so the
   * empty string gives one empty piece) and no piece holds `sep`.
   */
  function Split(s: string, sep: char): (r: seq<string>)
    ensures |r| >= 1
    ensures forall k :: 0 <= k < |r| ==> sep !in r[k]
    decreases |s|
  {
    if s == [] then [[]]
    else
      assert s == [s[0]] + s[1..];
      var rest := Split(s[1..], sep);
      if s[0] == sep then [[]] + rest
      else [[s[0]] + rest[0]] + rest[1..]
  }

  /** `strings.Join(parts, string(sep))`, the inverse of Split. */
  function Join(parts: seq<string>, sep: char): (r: string)
    requires |parts| > 0
    ensures |r| >= |parts| - 1
    decreases |parts|
  {
    if |parts| == 1 then parts[0] else parts[0] + [sep] + Join(parts[1..], sep)
  }

  /** Splitting and joining again gives back the original string. */
  lemma {:induction false} JoinSplit(s: string, sep: char)
    ensures Join(Split(s, sep), sep) == s
    decreases |s|
  {
    if s != [] {
      JoinSplit(s[1..], sep);
      var rest := Split(s[1..], sep);
      if s[0] == sep {
        assert Split(s, sep)[1..] == rest;
      } else {
        var parts := Split(s, sep);
        if |rest| == 1 {
          assert parts == [[s[0]] + rest[0]];
        } else {
          assert parts[1..] == rest[1..];
          assert Join(rest, sep) == rest[0] + [sep] + Join(rest[1..], sep);
        }
      }
    }
  }

  /** Joining pieces free of `sep` and splitting again gives back the pieces. */
  lemma {:induction false} SplitJoin(parts: seq<string>, sep: char)
    requires |parts| > 0
    requires forall k :: 0 <= k < |parts| ==> sep !in parts[k]
    ensures Split(Join(parts, sep), sep) == parts
    decreases |parts|, |parts[0]|
  {
    var p := parts[0];
    if p == [] {
      if |parts| > 1 {
        SplitJoin(parts[1..], sep);
        assert Join(parts, sep) == [sep] + Join(parts[1..], sep);
        assert ([sep] + Join(parts[1..], sep))[1..] == Join(parts[1..], sep);
        assert parts == [[]] + parts[1..];
      } else {
        assert Join(parts, sep) == [];
      }
    } else {
      var shorter := [p[1..]] + parts[1..];
      forall k | 0 <= k < |shorter| ensures sep !in shorter[k] {
        if k == 0 { assert p == [p[0]] + p[1..]; } else { assert shorter[k] == parts[k]; }
      }
      SplitJoin(shorter, sep);
      assert shorter[1..] == parts[1..];
      var j := Join(parts, sep);
      assert j == [p[0]] + Join(shorter, sep) by {
        if |parts| > 1 {
          assert p == [p[0]] + p[1..];
        }
      }
      assert j[1..] == Join(shorter, sep);
      assert p[0] != sep;
      assert [p[0]] + p[1..] == p;
      assert parts == [p] + parts[1..];
    }
  }

  /** A word that neither starts nor ends with white space survives TrimSpace. */
  lemma ContainsTrimSpace(s: string, w: string)
    requires Contains(s, w) && w != []
    requires !IsSpace(w[0]) && !IsSpace(w[|w| - 1])
    ensures Contains(TrimSpace(s), w)
  {
    var r := TrimSpace(s);
    var i :| 0 <= i <= |s| - |w| && OccursAt(s, w, i);
    TrimSpaceInfix(s);
    var j :| PaddedAt(s, r, j);
    WordInsidePadding(s, r, j, w, i);
    OccursWithin(s, r, j, w, i);
  }

  /** A word with non-space ends cannot overlap the white space around `r`. */
  lemma WordInsidePadding(s: string, r: string, j: int, w: string, i: int)
    requires PaddedAt(s, r, j) && OccursAt(s, w, i) && w != []
    requires !IsSpace(w[0]) && !IsSpace(w[|w| - 1])
    ensures j <= i && i + |w| <= j + |r|
  {
    var first, last := i, i + |w| - 1;
    assert s[first] == s[i..i + |w|][0] == w[0];
    assert s[last] == s[i..i + |w|][|w| - 1] == w[|w| - 1];
  }

  /** An occurrence inside the block `r` of `s` is an occurrence in `r`. */
  lemma OccursWithin(s: string, r: string, j: int, w: string, i: int)
    requires OccursAt(s, r, j) && OccursAt(s, w, i)
    requires j <= i && i + |w| <= j + |r|
    ensures OccursAt(r, w, i - j)
  {
    var d := i - j;
    forall k | 0 <= k < |w| ensures r[d + k] == w[k] {
      assert r[d + k] == s[j..j + |r|][d + k] == s[i + k];
      assert s[i + k] == s[i..i + |w|][k];
    }
    assert r[d..d + |w|] == w;
  }

  /** A word without `c` that occurs in `s` survives the removal of `c`. */
  lemma ContainsRemoveAll(s: string, w: string, c: char)
    requires Contains(s, w) && c !in w
    ensures Contains(RemoveAll(s, c), w)
  {
    var i :| 0 <= i <= |s| - |w| && OccursAt(s, w, i);
    var pre, post := s[..i], s[i + |w|..];
    assert s == pre + w + post;
    RemoveAllAppend(pre + w, post, c);
    RemoveAllAppend(pre, w, c);
    RemoveAllAbsent(w, c);
    var r := RemoveAll(s, c);
    assert r == RemoveAll(pre, c) + w + RemoveAll(post, c);
    assert OccursAt(r, w, |RemoveAll(pre, c)|);
  }

  /** An occurrence in `a` is an occurrence in `a + b`. */
  lemma ContainsAppendLeft(a: string, b: string, w: string)
    requires Contains(a, w)
    ensures Contains(a + b, w)
  {
    var i :| 0 <= i <= |a| - |w| && OccursAt(a, w, i);
    assert (a + b)[i..i + |w|] == a[i..i + |w|];
    assert OccursAt(a + b, w, i);
  }

  /** An occurrence in `b` is an occurrence in `a + b`. */
  lemma ContainsAppendRight(a: string, b: string, w: string)
    requires Contains(b, w)
    ensures Contains(a + b, w)
  {
    var i :| 0 <= i <= |b| - |w| && OccursAt(b, w, i);
    assert (a + b)[|a| + i..|a| + i + |w|] == b[i..i + |w|];
    assert OccursAt(a + b, w, |a| + i);
  }

  /** A word that occurs in one piece occurs in the joined string. */
  lemma {:induction false} ContainsJoin(parts: seq<string>, sep: char, k: nat, w: string)
    requires k < |parts| && Contains(parts[k], w)
    ensures Contains(Join(parts, sep), w)
    decreases |parts|
  {
    if |parts| > 1 {
      if k == 0 {
        ContainsAppendLeft(parts[0], [sep] + Join(parts[1..], sep), w);
        assert parts[0] + [sep] + Join(parts[1..], sep) == parts[0] + ([sep] + Join(parts[1..], sep));
      } else {
        ContainsJoin(parts[1..], sep, k - 1, w);
        ContainsAppendRight(parts[0] + [sep], Join(parts[1..], sep), w);
      }
    }
  }

  /** A word that occurs in one piece of a split occurs in the whole string. */
  lemma ContainsSplitPiece(s: string, sep: char, k: nat, w: string)
    requires k < |Split(s, sep)| && Contains(Split(s, sep)[k], w)
    ensures Contains(s, w)
  {
    ContainsJoin(Split(s, sep), sep, k, w);
    JoinSplit(s, sep);
  }

  /** A word with a character that `s` lacks does not occur in `s`. */
  lemma AbsentChar(s: string, w: string, j: nat)
    requires j < |w| && w[j] !in s
    ensures !Contains(s, w)
  {
    forall i | 0 <= i <= |s| - |w| ensures !OccursAt(s, w, i) {
      assert s[i..i + |w|][j] == s[i + j];
    }
  }

  /** Whatever occurs in TrimSpace(s) occurs in `s`. */
  lemma ContainsOfTrimSpace(s: string, w: string)
    ensures Contains(TrimSpace(s), w) ==> Contains(s, w)
  {
    var r := TrimSpace(s);
    if Contains(r, w) {
      TrimSpaceInfix(s);
      var j :| PaddedAt(s, r, j);
      var i :| 0 <= i <= |r| - |w| && OccursAt(r, w, i);
      assert s[j + i..j + i + |w|] == r[i..i + |w|];
      assert OccursAt(s, w, j + i);
    }
  }
}
