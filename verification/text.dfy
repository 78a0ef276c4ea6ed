/** String helpers of the Go library that the modelled code calls. */
module Text {

  /** The characters Go's strings.TrimSpace strips. */
  predicate IsSpace(c: char) {
    || c == ' ' || c == '\t' || c == '\n' || c == '\r' || c == '\U{0B}' || c == '\U{0C}'
    || c == '\U{85}' || c == '\U{A0}' || c == '\U{1680}' || '\U{2000}' <= c <= '\U{200A}'
    || c == '\U{2028}' || c == '\U{2029}' || c == '\U{202F}' || c == '\U{205F}' || c == '\U{3000}'
  }

  function TrimLeft(s: string): string {
    if |s| > 0 && IsSpace(s[0]) then TrimLeft(s[1..]) else s
  }

  function TrimRight(s: string): string {
    if |s| > 0 && IsSpace(s[|s| - 1]) then TrimRight(s[..|s| - 1]) else s
  }

  function TrimSpace(s: string): string {
    TrimRight(TrimLeft(s))
  }

  /** Starts and ends with something other than space. */
  predicate Clean(s: string) {
    |s| > 0 ==> !IsSpace(s[0]) && !IsSpace(s[|s| - 1])
  }

  lemma {:induction false} TrimLeftProperties(s: string)
    ensures |TrimLeft(s)| > 0 ==> !IsSpace(TrimLeft(s)[0]) && TrimLeft(s)[|TrimLeft(s)| - 1] == s[|s| - 1]
    ensures |TrimLeft(s)| <= |s|
  {
    if |s| > 0 && IsSpace(s[0]) {
      TrimLeftProperties(s[1..]);
    }
  }

  lemma {:induction false} TrimRightProperties(s: string)
    ensures TrimRight(s) <= s
    ensures |TrimRight(s)| > 0 ==> !IsSpace(TrimRight(s)[|TrimRight(s)| - 1])
    ensures |s| > 0 && !IsSpace(s[0]) ==> |TrimRight(s)| > 0
  {
    if |s| > 0 && IsSpace(s[|s| - 1]) {
      TrimRightProperties(s[..|s| - 1]);
    }
  }

  lemma TrimIsClean(s: string)
    ensures Clean(TrimSpace(s))
  {
    TrimLeftProperties(s);
    TrimRightProperties(TrimLeft(s));
  }

  lemma CleanTrim(s: string)
    requires Clean(s)
    ensures TrimSpace(s) == s
  {
  }

  /** One leading space is all that trimming takes off a clean string. */
  lemma SpaceTrim(s: string)
    requires Clean(s)
    ensures TrimSpace(" " + s) == s
  {
    assert (" " + s)[1..] == s;
    assert TrimLeft(" " + s) == TrimLeft(s);
    CleanTrim(s);
  }

  /** Trimming keeps a nonempty string that does not end in space nonempty. */
  lemma {:induction false} TrimKeepsEnd(s: string)
    requires |s| > 0 && !IsSpace(s[|s| - 1])
    ensures |TrimSpace(s)| > 0
  {
    if IsSpace(s[0]) {
      TrimKeepsEnd(s[1..]);
    }
  }
}
