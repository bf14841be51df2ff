/** JavaScript's String.prototype.trim, as the Home page uses it on the draft. */
module Text {

  /** The characters trim removes: ECMAScript's WhiteSpace (tab, vertical tab,
      form feed, the byte-order mark and every character of Unicode category Zs)
      and LineTerminator (line feed, carriage return, U+2028, U+2029). */
  predicate IsSpace(c: char) {
    || c == '\t' || c == '\n' || c == '\U{000B}' || c == '\U{000C}' || c == '\r'
    || c == ' ' || c == '\U{00A0}' || c == '\U{1680}'
    || ('\U{2000}' <= c <= '\U{200A}')
    || c == '\U{2028}' || c == '\U{2029}' || c == '\U{202F}' || c == '\U{205F}'
    || c == '\U{3000}' || c == '\U{FEFF}'
  }

  predicate AllSpace(s: string) {
    forall i :: 0 <= i < |s| ==> IsSpace(s[i])
  }

  /** Length of the longest all-whitespace prefix of s. */
  function LeadingSpaces(s: string): (n: nat)
    ensures n <= |s|
    ensures forall i :: 0 <= i < n ==> IsSpace(s[i])
    ensures n < |s| ==> !IsSpace(s[n])
  {
    if s == [] || !IsSpace(s[0]) then 0 else 1 + LeadingSpaces(s[1..])
  }

  /** Length of the longest all-whitespace suffix of s. */
  function TrailingSpaces(s: string): (n: nat)
    ensures n <= |s|
    ensures forall i :: |s| - n <= i < |s| ==> IsSpace(s[i])
    ensures n < |s| ==> !IsSpace(s[|s| - 1 - n])
  {
    if s == [] || !IsSpace(s[|s| - 1]) then 0 else 1 + TrailingSpaces(s[..|s| - 1])
  }

  /** s without its leading and trailing whitespace. */
  function Trim(s: string): (r: string)
    ensures |r| <= |s|
    ensures r == [] <==> AllSpace(s)
    ensures r != [] ==> !IsSpace(r[0]) && !IsSpace(r[|r| - 1])
  {
    var rest := s[LeadingSpaces(s)..];
    rest[..|rest| - TrailingSpaces(rest)]
  }

  /** LeadingSpaces is pinned down by its postcondition. */
  lemma LeadingSpacesUnique(s: string, n: nat)
    requires n <= |s|
    requires forall i :: 0 <= i < n ==> IsSpace(s[i])
    requires n < |s| ==> !IsSpace(s[n])
    ensures LeadingSpaces(s) == n
  {
  }

  /** TrailingSpaces is pinned down by its postcondition. */
  lemma TrailingSpacesUnique(s: string, n: nat)
    requires n <= |s|
    requires forall i :: |s| - n <= i < |s| ==> IsSpace(s[i])
    requires n < |s| ==> !IsSpace(s[|s| - 1 - n])
    ensures TrailingSpaces(s) == n
  {
  }

  /** Trim removes only whitespace: s is a whitespace prefix, Trim(s) and a
      whitespace suffix. */
  lemma TrimSplits(s: string)
    ensures exists p, q :: s == p + Trim(s) + q && AllSpace(p) && AllSpace(q)
  {
    var lead := LeadingSpaces(s);
    var rest := s[lead..];
    var trail := TrailingSpaces(rest);
    var r := Trim(s);
    assert r == rest[..|rest| - trail];
    var p, q := s[..lead], rest[|rest| - trail..];
    SplitAt(s, lead, |rest| - trail);
    assert s == p + r + q;
    assert AllSpace(p) by {
      forall i | 0 <= i < |p| ensures IsSpace(p[i]) { assert p[i] == s[i]; }
    }
    assert AllSpace(q) by {
      forall i | 0 <= i < |q| ensures IsSpace(q[i]) { assert q[i] == rest[|rest| - trail + i]; }
    }
  }

  lemma SplitAt(s: string, i: nat, n: nat)
    requires i + n <= |s|
    ensures s == s[..i] + s[i..][..n] + s[i..][n..]
  {
  }

  /** Any split of s into whitespace, a core that neither starts nor ends with
      whitespace, and whitespace, has Trim(s) as its core. */
  lemma TrimUnique(s: string, p: string, r: string, q: string)
    requires s == p + r + q && AllSpace(p) && AllSpace(q)
    requires r != [] ==> !IsSpace(r[0]) && !IsSpace(r[|r| - 1])
    ensures Trim(s) == r
  {
    if r == [] {
      forall i | 0 <= i < |s| ensures IsSpace(s[i]) {
        if i < |p| { assert s[i] == p[i]; } else { assert s[i] == q[i - |p|]; }
      }
    } else {
      assert s[|p|] == r[0];
      LeadingSpacesUnique(s, |p|);
      var rest := s[|p|..];
      assert rest == r + q;
      assert rest[|rest| - 1 - |q|] == r[|r| - 1];
      TrailingSpacesUnique(rest, |q|);
      assert rest[..|rest| - |q|] == r;
    }
  }

  lemma TrimIdempotent(s: string)
    ensures Trim(Trim(s)) == Trim(s)
  {
    var r := Trim(s);
    TrimUnique(r, [], r, []);
    assert r == [] + r + [];
  }
}
