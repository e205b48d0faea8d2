/**
 * The `chat:send-message` guard of server/room.js: a message is refused
 * when `text.trim()` is empty or the text is longer than 500 characters.
 */
module ChatRules {
  const MaxLength: nat := 500

  /** The characters `String.prototype.trim` removes: WhiteSpace and LineTerminator. */
  predicate IsTrimmable(c: char) {
    || c == '\t' || c == '\n' || c == '\U{B}' || c == '\U{C}' || c == '\r' || c == ' '
    || c == '\U{A0}' || c == '\U{1680}' || ('\U{2000}' <= c <= '\U{200A}')
    || c == '\U{2028}' || c == '\U{2029}' || c == '\U{202F}' || c == '\U{205F}'
    || c == '\U{3000}' || c == '\U{FEFF}'
  }

  function TrimStart(s: string): (r: string)
    ensures |r| <= |s| && r == s[|s| - |r|..]
    ensures |r| > 0 ==> !IsTrimmable(r[0])
    decreases |s|
  {
    if |s| > 0 && IsTrimmable(s[0]) then TrimStart(s[1..]) else s
  }

  function TrimEnd(s: string): (r: string)
    ensures |r| <= |s| && r == s[..|r|]
    ensures |r| > 0 ==> !IsTrimmable(r[|r| - 1])
    decreases |s|
  {
    if |s| > 0 && IsTrimmable(s[|s| - 1]) then TrimEnd(s[..|s| - 1]) else s
  }

  /** `text.trim()`. */
  function Trim(s: string): (r: string)
    ensures |r| <= |TrimStart(s)| <= |s|
    ensures r == s[|s| - |TrimStart(s)|..][..|r|]
    ensures |r| > 0 ==> !IsTrimmable(r[0]) && !IsTrimmable(r[|r| - 1])
  {
    var t := TrimStart(s);
    var r := TrimEnd(t);
    assert r == s[|s| - |t|..|s| - |t| + |r|];
    r
  }

  /** The handler goes on to store the message exactly when this holds. */
  predicate Accepts(text: string)
    ensures Accepts(text) ==> 0 < |text| <= MaxLength
  {
    |Trim(text)| != 0 && |text| <= MaxLength
  }

  lemma {:induction false} TrimStartEmptyIff(s: string)
    ensures |TrimStart(s)| == 0 <==> forall i :: 0 <= i < |s| ==> IsTrimmable(s[i])
    decreases |s|
  {
    if |s| > 0 && IsTrimmable(s[0]) {
      var t := s[1..];
      TrimStartEmptyIff(t);
      assert TrimStart(s) == TrimStart(t);
      if |TrimStart(s)| == 0 {
        forall i | 0 <= i < |s|
          ensures IsTrimmable(s[i])
        {
          if i > 0 {
            assert s[i] == t[i - 1];
          }
        }
      } else {
        var j :| 0 <= j < |t| && !IsTrimmable(t[j]);
        assert s[j + 1] == t[j];
      }
    }
  }

  lemma TrimEndOfNonEmpty(s: string)
    requires |s| > 0 && !IsTrimmable(s[0])
    ensures |TrimEnd(s)| > 0
    decreases |s|
  {
    if IsTrimmable(s[|s| - 1]) {
      TrimEndOfNonEmpty(s[..|s| - 1]);
    }
  }

  /** The trimmed text is empty exactly when every character is white space or a line break. */
  lemma TrimEmptyIff(s: string)
    ensures |Trim(s)| == 0 <==> forall i :: 0 <= i < |s| ==> IsTrimmable(s[i])
  {
    TrimStartEmptyIff(s);
    var t := TrimStart(s);
    if |t| > 0 {
      TrimEndOfNonEmpty(t);
    }
  }

  /** A message is stored iff it has a visible character and at most 500 characters. */
  lemma AcceptsIff(text: string)
    ensures Accepts(text) <==>
              |text| <= MaxLength && exists i :: 0 <= i < |text| && !IsTrimmable(text[i])
  {
    TrimEmptyIff(text);
  }
}
