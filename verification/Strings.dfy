/** The string operations the service relies on. */
module Strings {
  /** ECMAScript white space and line terminators. */
  predicate IsSpace(c: char) {
    || '\t' <= c <= '\r' || c == ' ' || c == '\U{00A0}' || c == '\U{1680}'
    || '\U{2000}' <= c <= '\U{200A}' || '\U{2028}' <= c <= '\U{2029}' || c == '\U{202F}'
    || c == '\U{205F}' || c == '\U{3000}' || c == '\U{FEFF}'
  }

  /** The 25 characters String.prototype.trim takes off, one by one. */
  lemma SpacesAre(c: char)
    ensures IsSpace(c) <==> c in "\t\n\U{000B}\U{000C}\r \U{00A0}\U{1680}\U{2000}\U{2001}\U{2002}\U{2003}\U{2004}\U{2005}\U{2006}\U{2007}\U{2008}\U{2009}\U{200A}\U{2028}\U{2029}\U{202F}\U{205F}\U{3000}\U{FEFF}"
  {
  }

  predicate AllSpace(s: string) {
    forall c :: c in s ==> IsSpace(c)
  }

  /** String.prototype.trim. */
  function Trim(s: string): string {
    if s == "" then ""
    else if IsSpace(s[0]) then Trim(s[1..])
    else if IsSpace(s[|s| - 1]) then Trim(s[..|s| - 1])
    else s
  }

  predicate Trimmed(s: string) {
    s == "" || (!IsSpace(s[0]) && !IsSpace(s[|s| - 1]))
  }

  lemma {:induction false} TrimOfSpace(s: string)
    requires AllSpace(s)
    ensures Trim(s) == ""
  {
    if s != "" {
      TrimOfSpace(s[1..]);
    }
  }

  /** White space around a key never makes it a different key. */
  lemma {:induction false} TrimIgnoresPadding(before: string, key: string, after: string)
    requires AllSpace(before) && AllSpace(after) && Trimmed(key)
    ensures Trim(before + key + after) == key
    decreases |before| + |after|
  {
    var s := before + key + after;
    if before != "" {
      assert s[1..] == before[1..] + key + after;
      TrimIgnoresPadding(before[1..], key, after);
    } else if key == "" {
      assert s == after;
      TrimOfSpace(after);
    } else if after != "" {
      assert s[|s| - 1] == after[|after| - 1];
      assert s[..|s| - 1] == before + key + after[..|after| - 1];
      TrimIgnoresPadding(before, key, after[..|after| - 1]);
    } else {
      assert s == key;
    }
  }

  /** Trimming takes white space off the two ends and nothing else. */
  lemma {:induction false} TrimIsCore(s: string) returns (i: nat, j: nat)
    ensures i <= j <= |s| && s[i..j] == Trim(s) && Trimmed(Trim(s))
    ensures forall k :: 0 <= k < |s| && !(i <= k < j) ==> IsSpace(s[k])
  {
    i, j := 0, |s|;
    if s != "" && IsSpace(s[0]) {
      i, j := TrimIsCore(s[1..]);
      assert s[1..][i..j] == s[i + 1..j + 1];
      i, j := i + 1, j + 1;
      forall k | 0 <= k < |s| && !(i <= k < j) ensures IsSpace(s[k]) {
        assert k > 0 ==> s[1..][k - 1] == s[k];
      }
    } else if s != "" && IsSpace(s[|s| - 1]) {
      i, j := TrimIsCore(s[..|s| - 1]);
    }
  }
}
