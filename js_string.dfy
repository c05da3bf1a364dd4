/**
 * The part of JavaScript's String.prototype the task list relies on: `trim`,
 * which the add and save-edit handlers use to reject blank input.
 */
module JsString {

  /**
   * The code points `trim` strips: ECMAScript WhiteSpace (TAB, VT, FF, ZWNBSP
   * and every Unicode "Zs" space) and LineTerminator (LF, CR, LS, PS).
   */
  predicate IsWhiteSpace(c: char) {
    var n := c as int;
    n == 0x09 || n == 0x0A || n == 0x0B || n == 0x0C || n == 0x0D ||
    n == 0x20 || n == 0xA0 || n == 0x1680 || (0x2000 <= n <= 0x200A) ||
    n == 0x2028 || n == 0x2029 || n == 0x202F || n == 0x205F ||
    n == 0x3000 || n == 0xFEFF
  }

  /** Every character of `s` is white space. */
  predicate AllWhiteSpace(s: string) {
    forall i :: 0 <= i < |s| ==> IsWhiteSpace(s[i])
  }

  /** A concatenation is all white space exactly when both parts are. */
  lemma AllWhiteSpaceConcat(a: string, b: string)
    ensures AllWhiteSpace(a + b) <==> AllWhiteSpace(a) && AllWhiteSpace(b)
  {
    if AllWhiteSpace(a + b) {
      forall i | 0 <= i < |a| ensures IsWhiteSpace(a[i]) {
        assert a[i] == (a + b)[i];
      }
      forall i | 0 <= i < |b| ensures IsWhiteSpace(b[i]) {
        assert b[i] == (a + b)[|a| + i];
      }
    }
    if AllWhiteSpace(a) && AllWhiteSpace(b) {
      forall i | 0 <= i < |a + b| ensures IsWhiteSpace((a + b)[i]) {
        if i < |a| {
          assert (a + b)[i] == a[i];
        } else {
          assert (a + b)[i] == b[i - |a|];
        }
      }
    }
  }

  /** Drops the leading white space; TrimStartCuts says what is dropped and what is kept. */
  function TrimStart(s: string): (r: string)
    ensures |r| <= |s|
  {
    if s != [] && IsWhiteSpace(s[0]) then TrimStart(s[1..]) else s
  }

  /**
   * TrimStart keeps a suffix of its input: what it cuts is white space, and
   * what it keeps does not start with white space.
   */
  lemma {:induction false} TrimStartCuts(s: string)
    ensures TrimStart(s) == s[|s| - |TrimStart(s)|..]
    ensures AllWhiteSpace(s[..|s| - |TrimStart(s)|])
    ensures TrimStart(s) == [] || !IsWhiteSpace(TrimStart(s)[0])
  {
    if s != [] && IsWhiteSpace(s[0]) {
      var t := s[1..];
      var r := TrimStart(t);
      TrimStartCuts(t);
      assert TrimStart(s) == r;
      assert s[|s| - |r|..] == t[|t| - |r|..];
      var cut := s[..|s| - |r|];
      forall i | 0 <= i < |cut| ensures IsWhiteSpace(cut[i]) {
        if i > 0 {
          assert cut[i] == t[..|t| - |r|][i - 1];
        }
      }
    } else {
      assert s[..|s| - |TrimStart(s)|] == [];
    }
  }

  /** Drops the trailing white space; TrimEndCuts says what is dropped and what is kept. */
  function TrimEnd(s: string): (r: string)
    ensures |r| <= |s|
  {
    if s != [] && IsWhiteSpace(s[|s| - 1]) then TrimEnd(s[..|s| - 1]) else s
  }

  /**
   * TrimEnd keeps a prefix of its input: what it cuts is white space, and
   * what it keeps does not end with white space.
   */
  lemma {:induction false} TrimEndCuts(s: string)
    ensures TrimEnd(s) == s[..|TrimEnd(s)|]
    ensures AllWhiteSpace(s[|TrimEnd(s)|..])
    ensures TrimEnd(s) == [] || !IsWhiteSpace(TrimEnd(s)[|TrimEnd(s)| - 1])
  {
    if s != [] && IsWhiteSpace(s[|s| - 1]) {
      var t := s[..|s| - 1];
      var r := TrimEnd(t);
      TrimEndCuts(t);
      assert TrimEnd(s) == r;
      assert s[..|r|] == t[..|r|];
      assert s[|r|..] == t[|r|..] + [s[|s| - 1]];
      AllWhiteSpaceConcat(t[|r|..], [s[|s| - 1]]);
    } else {
      assert s[|TrimEnd(s)|..] == [];
    }
  }

  /** String.prototype.trim; it returns a window of `s` (TrimWindow says which). */
  function Trim(s: string): (r: string)
    ensures |r| <= |s|
  {
    TrimEnd(TrimStart(s))
  }

  /** The trimmed string neither starts nor ends with white space. */
  lemma TrimEnds(s: string)
    ensures Trim(s) == [] || (!IsWhiteSpace(Trim(s)[0]) && !IsWhiteSpace(Trim(s)[|Trim(s)| - 1]))
  {
    var t := TrimStart(s);
    TrimStartCuts(s);
    TrimEndCuts(t);
    if Trim(s) != [] {
      assert Trim(s)[0] == t[0];
    }
  }

  /** A suffix's prefix is a window of the whole; white space on both sides carries over. */
  lemma WindowOf(s: string, t: string, r: string) returns (k: nat)
    requires |t| <= |s| && t == s[|s| - |t|..]
    requires |r| <= |t| && r == t[..|r|]
    requires AllWhiteSpace(s[..|s| - |t|]) && AllWhiteSpace(t[|r|..])
    ensures k + |r| <= |s| && r == s[k..k + |r|]
    ensures AllWhiteSpace(s[..k]) && AllWhiteSpace(s[k + |r|..])
  {
    k := |s| - |t|;
    assert s[k..][..|r|] == s[k..k + |r|];
    assert t[|r|..] == s[k + |r|..];
  }

  /**
   * `trim` cuts a window out of its input and everything outside the window
   * is white space.
   */
  lemma TrimWindow(s: string) returns (k: nat)
    ensures k + |Trim(s)| <= |s|
    ensures Trim(s) == s[k..k + |Trim(s)|]
    ensures AllWhiteSpace(s[..k]) && AllWhiteSpace(s[k + |Trim(s)|..])
  {
    var t := TrimStart(s);
    var r := TrimEnd(t);
    assert Trim(s) == r;
    assert t == s[|s| - |t|..] && r == t[..|r|] by {
      TrimStartCuts(s);
      TrimEndCuts(t);
    }
    assert AllWhiteSpace(s[..|s| - |t|]) && AllWhiteSpace(t[|r|..]) by {
      TrimStartCuts(s);
      TrimEndCuts(t);
    }
    k := WindowOf(s, t, r);
  }
  /** The validation guards' test: `s.trim() === ''` exactly when `s` is all white space. */
  lemma TrimEmptyIff(s: string)
    ensures Trim(s) == "" <==> AllWhiteSpace(s)
  {
    var k := TrimWindow(s);
    if Trim(s) == "" {
      assert s == s[..k] + s[k..];
      AllWhiteSpaceConcat(s[..k], s[k..]);
    } else {
      TrimEnds(s);
      assert s[k] == Trim(s)[0];
    }
  }

  /** A string without white space at either end is its own trim. */
  lemma TrimUnchanged(s: string)
    requires s == [] || (!IsWhiteSpace(s[0]) && !IsWhiteSpace(s[|s| - 1]))
    ensures Trim(s) == s
  {
    assert TrimStart(s) == s;
    if s != [] {
      assert TrimEnd(s) == s;
    }
  }

  /** Trimming twice is trimming once. */
  lemma TrimIdempotent(s: string)
    ensures Trim(Trim(s)) == Trim(s)
  {
    TrimEnds(s);
    TrimUnchanged(Trim(s));
  }
}
