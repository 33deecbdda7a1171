/** The checkpoint store: one text file holding the live cursor. The file is
    modelled as its contents, None when it does not exist. */
module Checkpoint {
  import opened Events

  /** The characters Python's `str.strip()` removes. */
  predicate IsSpace(c: char) {
    || ('\U{9}' <= c <= '\U{d}')
    || ('\U{1c}' <= c <= '\U{20}')
    || c == '\U{85}' || c == '\U{a0}' || c == '\U{1680}'
    || ('\U{2000}' <= c <= '\U{200a}')
    || c == '\U{2028}' || c == '\U{2029}' || c == '\U{202f}' || c == '\U{205f}' || c == '\U{3000}'
  }

  /** The number of whitespace characters `s` starts with. */
  function LeadingSpaces(s: string): (k: nat)
    ensures k <= |s|
    ensures forall i :: 0 <= i < k ==> IsSpace(s[i])
    ensures k < |s| ==> !IsSpace(s[k])
  {
    if s == [] || !IsSpace(s[0]) then 0 else 1 + LeadingSpaces(s[1..])
  }

  /** The number of whitespace characters `s` ends with. */
  function TrailingSpaces(s: string): (k: nat)
    ensures k <= |s|
    ensures forall i :: |s| - k <= i < |s| ==> IsSpace(s[i])
    ensures k < |s| ==> !IsSpace(s[|s| - 1 - k])
  {
    if s == [] || !IsSpace(s[|s| - 1]) then 0 else 1 + TrailingSpaces(s[..|s| - 1])
  }

  /** Neither end of `s` is whitespace. */
  predicate IsStripped(s: string) {
    s == [] || (!IsSpace(s[0]) && !IsSpace(s[|s| - 1]))
  }

  /** `s.strip()` */
  function Strip(s: string): (r: string)
    ensures IsStripped(r)
    ensures r == [] ==> forall i :: 0 <= i < |s| ==> IsSpace(s[i])
  {
    var t := s[LeadingSpaces(s)..];
    var r := t[..|t| - TrailingSpaces(t)];
    assert r != [] ==> r[0] == t[0];
    r
  }

  /** Stripping removes whitespace only: what is left is the middle of `s`
      and everything around it is whitespace. */
  lemma StripKeepsMiddle(s: string) returns (a: nat)
    ensures a + |Strip(s)| <= |s|
    ensures Strip(s) == s[a..a + |Strip(s)|]
    ensures forall j :: 0 <= j < a ==> IsSpace(s[j])
    ensures forall j :: a + |Strip(s)| <= j < |s| ==> IsSpace(s[j])
  {
    a := LeadingSpaces(s);
    var t := s[a..];
    var b := TrailingSpaces(t);
    assert Strip(s) == s[a..a + |Strip(s)|];
    assert forall j :: a + |Strip(s)| <= j < |s| ==> s[j] == t[j - a];
  }

  /** A string with no whitespace at either end strips to itself. */
  lemma {:induction false} StripStripped(s: string)
    requires IsStripped(s)
    ensures Strip(s) == s
  {
    if s != [] {
      assert LeadingSpaces(s) == 0;
      assert TrailingSpaces(s) == 0;
    }
  }

  /** `_load_cursor`: the stripped file contents, or None without a file. */
  function LoadCursor(file: Option<string>): (c: Option<string>)
    ensures c.Some? <==> file.Some?
    ensures c.Some? ==> IsStripped(c.value)
  {
    if file.Some? then Some(Strip(file.value)) else None
  }

  /** The file after `stop`: the cursor is written only when it is a
      non-empty string and the write succeeds (`writeOk`). */
  function SavedCursor(file: Option<string>, cursor: Option<string>, writeOk: bool): (f: Option<string>)
    ensures f != file ==> cursor.Some? && cursor.value != [] && f == cursor
    ensures cursor.Some? && cursor.value != [] && writeOk ==> f == cursor
  {
    if cursor.Some? && cursor.value != [] && writeOk then cursor else file
  }

  /** Loading after a successful save gives back the stripped cursor; a
      cursor with no whitespace at its ends comes back unchanged. */
  lemma SaveThenLoad(file: Option<string>, c: string)
    requires c != []
    ensures LoadCursor(SavedCursor(file, Some(c), true)) == Some(Strip(c))
    ensures IsStripped(c) ==> LoadCursor(SavedCursor(file, Some(c), true)) == Some(c)
  {
    if IsStripped(c) {
      StripStripped(c);
    }
  }

  /** Strip is idempotent: a loaded cursor saved again loads the same. */
  lemma StripIdempotent(s: string)
    ensures Strip(Strip(s)) == Strip(s)
  {
    StripStripped(Strip(s));
  }
}
