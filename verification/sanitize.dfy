/**
  The filename sanitiser of `File.normalize_filename` (core.py:151-153):
  strip surrounding whitespace, turn every space into an underscore, then
  delete every character that is not a word character, a hyphen or a dot.
  The names "", "." and ".." that may come out are refused by the caller.
*/
module Sanitization {

  /** Characters `str.strip()` removes, restricted to ASCII. */
  predicate IsSpace(c: char) {
    c == ' ' || c == '\t' || c == '\n' || c == '\r' || c == '\U{B}' || c == '\U{C}'
    || ('\U{1C}' <= c <= '\U{1F}')
  }

  /** Characters `\w` matches, restricted to ASCII. */
  predicate IsWordChar(c: char) {
    ('a' <= c <= 'z') || ('A' <= c <= 'Z') || ('0' <= c <= '9') || c == '_'
  }

  /** Characters the pattern `[-\w.]` keeps. */
  predicate Allowed(c: char) {
    IsWordChar(c) || c == '-' || c == '.'
  }

  predicate AllAllowed(s: string) {
    forall i :: 0 <= i < |s| ==> Allowed(s[i])
  }

  function StripLeft(s: string): (r: string)
    ensures |r| <= |s| && r == s[|s| - |r|..]
    ensures r == [] || !IsSpace(r[0])
    ensures forall i :: 0 <= i < |s| - |r| ==> IsSpace(s[i])
  {
    if s != [] && IsSpace(s[0]) then StripLeft(s[1..]) else s
  }

  function StripRight(s: string): (r: string)
    ensures |r| <= |s| && r == s[..|r|]
    ensures r == [] || !IsSpace(r[|r| - 1])
    ensures forall i :: |r| <= i < |s| ==> IsSpace(s[i])
  {
    if s != [] && IsSpace(s[|s| - 1]) then StripRight(s[..|s| - 1]) else s
  }

  /** `s.strip()`. */
  function Strip(s: string): (r: string)
    ensures r == [] || (!IsSpace(r[0]) && !IsSpace(r[|r| - 1]))
  {
    StripRight(StripLeft(s))
  }

  /** `s.replace(" ", "_")`. */
  function ReplaceSpaces(s: string): (r: string)
    ensures |r| == |s|
    ensures forall i :: 0 <= i < |s| ==> r[i] == (if s[i] == ' ' then '_' else s[i])
  {
    if s == [] then [] else ReplaceSpaces(s[..|s| - 1]) + [if s[|s| - 1] == ' ' then '_' else s[|s| - 1]]
  }

  /** `re.sub(r"[^-\w.]", "", s)`: the allowed characters of `s`, in order. */
  function KeepAllowed(s: string): (r: string)
    ensures |r| <= |s|
    ensures AllAllowed(r)
  {
    if s == [] then []
    else if Allowed(s[|s| - 1]) then KeepAllowed(s[..|s| - 1]) + [s[|s| - 1]]
    else KeepAllowed(s[..|s| - 1])
  }

  /** The sanitised form of a file name. */
  function Sanitize(name: string): (r: string)
    ensures AllAllowed(r)
    ensures ' ' !in r
  {
    KeepAllowed(ReplaceSpaces(Strip(name)))
  }

  /** The names `normalize_filename` refuses to rename to. */
  predicate Suspicious(s: string) {
    s == "" || s == "." || s == ".."
  }

  /** Deleting characters distributes over concatenation. */
  lemma {:induction false} KeepAllowedConcat(a: string, b: string)
    ensures KeepAllowed(a + b) == KeepAllowed(a) + KeepAllowed(b)
  {
    if b == [] {
      assert a + b == a;
    } else {
      assert (a + b)[..|a + b| - 1] == a + b[..|b| - 1];
      KeepAllowedConcat(a, b[..|b| - 1]);
    }
  }

  /** A string of allowed characters is left as it is. */
  lemma {:induction false} KeepAllowedClean(s: string)
    requires AllAllowed(s)
    ensures KeepAllowed(s) == s
  {
    if s != [] {
      KeepAllowedClean(s[..|s| - 1]);
    }
  }

  /** Nothing allowed is lost: the kept and the deleted characters together are those of `s`. */
  lemma {:induction false} KeepAllowedMultiset(s: string)
    ensures multiset(KeepAllowed(s)) + multiset(DisallowedOf(s)) == multiset(s)
  {
    if s != [] {
      var init := s[..|s| - 1];
      KeepAllowedMultiset(init);
      assert s == init + [s[|s| - 1]];
    }
  }

  function DisallowedOf(s: string): (r: string)
    ensures forall i :: 0 <= i < |r| ==> !Allowed(r[i])
  {
    if s == [] then []
    else if Allowed(s[|s| - 1]) then DisallowedOf(s[..|s| - 1])
    else DisallowedOf(s[..|s| - 1]) + [s[|s| - 1]]
  }

  lemma StripClean(s: string)
    requires s == [] || (!IsSpace(s[0]) && !IsSpace(s[|s| - 1]))
    ensures Strip(s) == s
  {
  }

  lemma {:induction false} ReplaceSpacesClean(s: string)
    requires ' ' !in s
    ensures ReplaceSpaces(s) == s
  {
    var r := ReplaceSpaces(s);
    assert forall i :: 0 <= i < |s| ==> r[i] == s[i];
  }

  /** A name made only of allowed characters is its own sanitised form. */
  lemma {:induction false} SanitizeClean(s: string)
    requires AllAllowed(s)
    ensures Sanitize(s) == s
  {
    assert s == [] || (Allowed(s[0]) && Allowed(s[|s| - 1]));
    StripClean(s);
    ReplaceSpacesAllowed(s);
    KeepAllowedClean(s);
  }

  lemma {:induction false} ReplaceSpacesAllowed(s: string)
    requires AllAllowed(s)
    ensures ReplaceSpaces(s) == s
  {
    var r := ReplaceSpaces(s);
    forall i | 0 <= i < |s|
      ensures r[i] == s[i]
    {
      assert Allowed(s[i]);
    }
  }

  /** A character that is not allowed does not occur in a string of allowed characters. */
  lemma AllowedHasNo(s: string, c: char)
    requires AllAllowed(s) && !Allowed(c)
    ensures c !in s
  {
  }

  /** Sanitising is idempotent: a sanitised name is its own sanitised form. */
  lemma SanitizeIdempotent(name: string)
    ensures Sanitize(Sanitize(name)) == Sanitize(name)
  {
    SanitizeClean(Sanitize(name));
  }

  /** A string with no allowed character is deleted entirely. */
  lemma {:induction false} KeepAllowedNone(s: string)
    requires forall i :: 0 <= i < |s| ==> !Allowed(s[i])
    ensures KeepAllowed(s) == []
  {
    if s != [] {
      KeepAllowedNone(s[..|s| - 1]);
    }
  }

  lemma KeepAppendClean(x: string, y: string)
    requires AllAllowed(y)
    ensures KeepAllowed(x + y) == KeepAllowed(x) + y
  {
    KeepAllowedConcat(x, y);
    KeepAllowedClean(y);
  }

  lemma KeepAppendNone(x: string, y: string)
    requires forall i :: 0 <= i < |y| ==> !Allowed(y[i])
    ensures KeepAllowed(x + y) == KeepAllowed(x)
  {
    KeepAllowedConcat(x, y);
    KeepAllowedNone(y);
    assert KeepAllowed(x) + [] == KeepAllowed(x);
  }

  /** Stripping only removes characters from the ends. */
  lemma StripInfix(s: string)
    ensures forall i :: 0 <= i < |Strip(s)| ==> Strip(s)[i] in s
  {
    var l := StripLeft(s);
    forall i | 0 <= i < |Strip(s)| ensures Strip(s)[i] in s {
      assert Strip(s)[i] == l[i] == s[|s| - |l| + i];
    }
  }

  /**
    A name without a space and without any allowed character ("***")
    sanitises to the empty name, which `normalize_filename` refuses.
  */
  lemma {:induction false} SanitizeNothingAllowed(name: string)
    requires ' ' !in name
    requires forall i :: 0 <= i < |name| ==> !Allowed(name[i])
    ensures Sanitize(name) == [] && Suspicious(Sanitize(name))
  {
    var t := Strip(name);
    StripInfix(name);
    assert ' ' !in t;
    ReplaceSpacesClean(t);
    KeepAllowedNone(t);
  }

  lemma SanitizeStars(name: string)
    requires name == "***"
    ensures Suspicious(Sanitize(name))
  {
    SanitizeNothingAllowed(name);
  }

  lemma ReplaceSpacesExample(s: string)
    requires s == "My File (final)!.txt"
    ensures ReplaceSpaces(s) == "My_File_(final)!.txt"
  {
    var r := ReplaceSpaces(s);
    var t := "My_File_(final)!.txt";
    forall i | 0 <= i < |r| ensures r[i] == t[i] {
    }
  }

  lemma KeepFivePieces(a: string, b: string, c: string, d: string, e: string)
    requires AllAllowed(a) && AllAllowed(c) && AllAllowed(e)
    requires forall i :: 0 <= i < |b| ==> !Allowed(b[i])
    requires forall i :: 0 <= i < |d| ==> !Allowed(d[i])
    ensures KeepAllowed(a + b + c + d + e) == a + c + e
  {
    KeepAppendClean(a + b + c + d, e);
    KeepAppendNone(a + b + c, d);
    KeepAppendClean(a + b, c);
    KeepAppendNone(a, b);
    KeepAllowedClean(a);
  }

  lemma KeepAllowedExample(r: string, a: string, b: string, c: string, d: string, e: string)
    requires r == "My_File_(final)!.txt"
    requires a == "My_File_" && b == "(" && c == "final" && d == ")!" && e == ".txt"
    ensures KeepAllowed(r) == "My_File_final.txt"
  {
    assert r == a + b + c + d + e;
    assert AllAllowed(a) && AllAllowed(c) && AllAllowed(e);
    KeepFivePieces(a, b, c, d, e);
  }

  /** An example: spaces become underscores, the brackets and the "!" disappear. */
  lemma SanitizeExample(name: string)
    requires name == "My File (final)!.txt"
    ensures Sanitize(name) == "My_File_final.txt"
  {
    StripClean(name);
    ReplaceSpacesExample(name);
    KeepAllowedExample(ReplaceSpaces(name), "My_File_", "(", "final", ")!", ".txt");
  }
}
