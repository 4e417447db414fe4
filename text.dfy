/** The string helpers the two services rely on: JavaScript's whitespace class
    and `trim()`, ASCII lower-casing, and the email regular expression
    `^[^\s@]+@[^\s@]+\.[^\s@]+$`. */
module Text {

  /** JavaScript's `\s` class; `String.prototype.trim` strips the same set. */
  predicate IsSpace(c: char) {
    || c == ' ' || c == '\t' || c == '\n' || c == '\r' || c == '\U{B}' || c == '\U{C}'
    || c == '\U{A0}' || c == '\U{1680}' || ('\U{2000}' <= c <= '\U{200A}')
    || c == '\U{2028}' || c == '\U{2029}' || c == '\U{202F}' || c == '\U{205F}'
    || c == '\U{3000}' || c == '\U{FEFF}'
  }

  /** Every character is whitespace: `s.trim()` is falsy. */
  predicate Blank(s: string) {
    forall i :: 0 <= i < |s| ==> IsSpace(s[i])
  }

  /** The number of whitespace characters `s` starts with. */
  function LeadingSpace(s: string): (k: nat)
    ensures k <= |s|
    ensures forall i :: 0 <= i < k ==> IsSpace(s[i])
    ensures k < |s| ==> !IsSpace(s[k])
  {
    if s == [] || !IsSpace(s[0]) then 0 else 1 + LeadingSpace(s[1..])
  }

  /** The length of `s` once its trailing whitespace is dropped. */
  function TrailingStart(s: string): (k: nat)
    ensures k <= |s|
    ensures forall i :: k <= i < |s| ==> IsSpace(s[i])
    ensures 0 < k ==> !IsSpace(s[k - 1])
  {
    if s == [] || !IsSpace(s[|s| - 1]) then |s| else TrailingStart(s[..|s| - 1])
  }

  /** `s.trim()`: drops the leading and the trailing whitespace. */
  function Trim(s: string): string {
    var a := LeadingSpace(s);
    s[a..][..TrailingStart(s[a..])]
  }

  /** The trimmed string is the middle of `s` between a blank prefix and a
      blank suffix, neither starting nor ending with whitespace, and it is
      empty exactly when `s` is blank. */
  lemma TrimSpec(s: string)
    ensures var r := Trim(s);
      && (exists a, b :: 0 <= a <= b <= |s| && r == s[a..b] && Blank(s[..a]) && Blank(s[b..]))
      && (r != [] ==> !IsSpace(r[0]) && !IsSpace(r[|r| - 1]))
      && (r == [] <==> Blank(s))
  {
    var a := LeadingSpace(s);
    var t := s[a..];
    var b := TrailingStart(t);
    assert t[..b] == s[a..a + b];
    assert Blank(s[..a]);
    var u := s[a + b..];
    assert Blank(u) by {
      forall i | 0 <= i < |u| ensures IsSpace(u[i]) {
        assert u[i] == t[b + i];
      }
    }
    assert t[..b] == [] ==> a == |s| && s[..a] == s;
  }

  /** A string without any whitespace trims to itself. */
  lemma TrimOfUnspaced(s: string)
    requires forall i :: 0 <= i < |s| ==> !IsSpace(s[i])
    ensures Trim(s) == s
  {
    assert LeadingSpace(s) == 0;
  }

  /** A string that neither starts nor ends with whitespace trims to itself,
      whatever it holds in between. */
  lemma TrimOfFramed(s: string)
    requires s != [] && !IsSpace(s[0]) && !IsSpace(s[|s| - 1])
    ensures Trim(s) == s
  {
    assert LeadingSpace(s) == 0;
    assert s[0..] == s;
    assert TrailingStart(s) == |s|;
  }

  /** ASCII case folding; every other character is kept. */
  function LowerChar(c: char): (d: char)
    ensures !('A' <= d <= 'Z')
    ensures 'A' <= c <= 'Z' ==> d as int == c as int + 32
    ensures !('A' <= c <= 'Z') ==> d == c
  {
    if 'A' <= c <= 'Z' then (c as int + 32) as char else c
  }

  /** `s.toLowerCase()` restricted to ASCII letters. */
  function Lower(s: string): (r: string)
    ensures |r| == |s|
    ensures forall i :: 0 <= i < |s| ==> r[i] == LowerChar(s[i])
  {
    if s == [] then [] else [LowerChar(s[0])] + Lower(s[1..])
  }

  /** `c` may stand in any of the three runs `[^\s@]+` of the email pattern. */
  predicate PlainChar(c: char) {
    !IsSpace(c) && c != '@'
  }

  predicate AllPlain(s: string) {
    forall i :: 0 <= i < |s| ==> PlainChar(s[i])
  }

  /** What `^[^\s@]+@[^\s@]+\.[^\s@]+$` accepts: a non-empty local part, one
      '@', then a domain with a '.' that has at least one character on each
      side, and no whitespace and no second '@' anywhere. */
  ghost predicate MatchesEmailPattern(s: string) {
    exists at, dot :: 0 < at && at + 1 < dot < |s| - 1 && s[at] == '@' && s[dot] == '.'
      && AllPlain(s[..at]) && AllPlain(s[at + 1..])
  }

  /** The index of the first `c` in `s`, or `|s|` when there is none. */
  function IndexOfChar(s: string, c: char): (k: nat)
    ensures k <= |s|
    ensures k < |s| ==> s[k] == c
    ensures forall i :: 0 <= i < k ==> s[i] != c
  {
    if s == [] then 0 else if s[0] == c then 0 else 1 + IndexOfChar(s[1..], c)
  }

  /** The regular-expression test `/^[^\s@]+@[^\s@]+\.[^\s@]+$/.test(s)`. */
  function IsEmailFormat(s: string): bool {
    var at := IndexOfChar(s, '@');
    0 < at && at + 3 < |s| && AllPlain(s[..at]) && AllPlain(s[at + 1..]) && '.' in s[at + 2..|s| - 1]
  }

  /** The test accepts exactly the strings the pattern describes. */
  lemma IsEmailFormatSpec(s: string)
    ensures IsEmailFormat(s) <==> MatchesEmailPattern(s)
  {
    if IsEmailFormat(s) {
      EmailFormatSound(s);
    }
    if MatchesEmailPattern(s) {
      EmailFormatComplete(s);
    }
  }

  lemma EmailFormatSound(s: string)
    requires IsEmailFormat(s)
    ensures MatchesEmailPattern(s)
  {
    var at := IndexOfChar(s, '@');
    var j :| 0 <= j < |s[at + 2..|s| - 1]| && s[at + 2..|s| - 1][j] == '.';
    assert s[at + 2 + j] == '.';
  }

  lemma EmailFormatComplete(s: string)
    requires MatchesEmailPattern(s)
    ensures IsEmailFormat(s)
  {
    var at := IndexOfChar(s, '@');
    var at', dot :| 0 < at' && at' + 1 < dot < |s| - 1 && s[at'] == '@' && s[dot] == '.'
      && AllPlain(s[..at']) && AllPlain(s[at' + 1..]);
    assert forall i :: 0 <= i < at' ==> s[i] != '@' by {
      forall i | 0 <= i < at' ensures s[i] != '@' {
        assert s[i] == s[..at'][i];
      }
    }
    assert at == at';
    assert s[at + 2..|s| - 1][dot - at - 2] == '.';
  }

  /** A well-formed email is never blank, so it passes the "required" test. */
  lemma EmailFormatNotBlank(s: string)
    requires MatchesEmailPattern(s)
    ensures Trim(s) != [] && Trim(s) == s
  {
    var at, dot :| 0 < at && at + 1 < dot < |s| - 1 && s[at] == '@' && s[dot] == '.'
      && AllPlain(s[..at]) && AllPlain(s[at + 1..]);
    forall i | 0 <= i < |s| ensures !IsSpace(s[i]) {
      if i < at { assert s[i] == s[..at][i]; }
      else if i > at { assert s[i] == s[at + 1..][i - at - 1]; }
    }
    TrimOfUnspaced(s);
  }
}
