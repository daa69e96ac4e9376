/** The few string operations the services rely on.  White space is Unicode's;
    letters change case within ASCII. */
module Text {

  predicate IsSpace(c: char) {
    || c == ' ' || '\t' <= c <= '\r' || '\U{1c}' <= c <= '\U{1f}'
    || c == '\U{85}' || c == '\U{a0}' || c == '\U{1680}' || '\U{2000}' <= c <= '\U{200a}'
    || c == '\U{2028}' || c == '\U{2029}' || c == '\U{202f}' || c == '\U{205f}' || c == '\U{3000}'
  }

  function UpperChar(c: char): char {
    if 'a' <= c <= 'z' then ((c as int) - 32) as char else c
  }

  function Upper(s: string): (r: string)
    ensures |r| == |s|
    ensures forall i :: 0 <= i < |s| ==> r[i] == UpperChar(s[i])
  {
    seq(|s|, i requires 0 <= i < |s| => UpperChar(s[i]))
  }

  function StripLeft(s: string): string {
    if s != "" && IsSpace(s[0]) then StripLeft(s[1..]) else s
  }

  function StripRight(s: string): string {
    if s != "" && IsSpace(s[|s| - 1]) then StripRight(s[..|s| - 1]) else s
  }

  function Strip(s: string): string {
    StripRight(StripLeft(s))
  }

  /** Every occurrence of `c` removed. */
  function Remove(s: string, c: char): string {
    if s == "" then "" else (if s[0] == c then "" else [s[0]]) + Remove(s[1..], c)
  }

  predicate EndsWith(s: string, suffix: string) {
    |suffix| <= |s| && s[|s| - |suffix|..] == suffix
  }

  function IndexOf(s: string, c: char): (i: nat)
    ensures i <= |s|
    ensures i < |s| ==> s[i] == c
    ensures c !in s[..i]
    ensures i == |s| ==> c !in s
  {
    if s == "" || s[0] == c then 0
    else
      var i := 1 + IndexOf(s[1..], c);
      assert s[..i] == [s[0]] + s[1..][..i - 1];
      i
  }

  /** The non-empty parts of `s` between occurrences of `c`. */
  function Parts(s: string, c: char): seq<string> {
    if s == "" then []
    else
      var i := IndexOf(s, c);
      (if i == 0 then [] else [s[..i]]) + (if i == |s| then [] else Parts(s[i + 1..], c))
  }

  /** The alphabet in capitals. */
  lemma Capitals()
    ensures Upper("abcdefghijklmnopqrstuvwxyz") == "ABCDEFGHIJKLMNOPQRSTUVWXYZ"
  {
  }

  lemma CapitalsStay(s: string)
    requires forall c :: c in s ==> !('a' <= c <= 'z')
    ensures Upper(s) == s
  {
    assert forall i :: 0 <= i < |s| ==> s[i] in s;
  }

  lemma {:induction false} StripLeftCuts(s: string) returns (i: nat)
    ensures i <= |s| && StripLeft(s) == s[i..]
    ensures forall k :: 0 <= k < i ==> IsSpace(s[k])
    ensures i < |s| ==> !IsSpace(s[i])
  {
    if s == "" || !IsSpace(s[0]) {
      i := 0;
    } else {
      var j := StripLeftCuts(s[1..]);
      i := j + 1;
      assert forall k :: 1 <= k < i ==> s[k] == s[1..][k - 1];
    }
  }

  lemma {:induction false} StripRightCuts(s: string) returns (j: nat)
    ensures j <= |s| && StripRight(s) == s[..j]
    ensures forall k :: j <= k < |s| ==> IsSpace(s[k])
    ensures j > 0 ==> !IsSpace(s[j - 1])
  {
    if s == "" || !IsSpace(s[|s| - 1]) {
      j := |s|;
    } else {
      j := StripRightCuts(s[..|s| - 1]);
    }
  }

  /** Stripping cuts white space off both ends and nothing else. */
  lemma StripCuts(s: string) returns (i: nat, j: nat)
    ensures i <= j <= |s| && Strip(s) == s[i..j]
    ensures forall k :: 0 <= k < i || j <= k < |s| ==> IsSpace(s[k])
    ensures i < j ==> !IsSpace(s[i]) && !IsSpace(s[j - 1])
  {
    i := StripLeftCuts(s);
    var n := StripRightCuts(s[i..]);
    j := i + n;
    assert s[i..][..n] == s[i..j];
    assert forall k :: j <= k < |s| ==> s[k] == s[i..][k - i];
    if i < j {
      assert s[j - 1] == s[i..][n - 1];
    }
  }

  /** Capitals and digits, such as asset codes. */
  predicate Code(s: string) {
    s != "" && forall c :: c in s ==> 'A' <= c <= 'Z' || '0' <= c <= '9'
  }

  lemma EndsOtherwise(s: string, q: string, k: nat)
    requires 1 <= k <= |q| && k <= |s| && s[|s| - k] != q[|q| - k]
    ensures !EndsWith(s, q)
  {
    assert |q| <= |s| ==> s[|s| - |q|..][|q| - k] == s[|s| - k];
  }
}
