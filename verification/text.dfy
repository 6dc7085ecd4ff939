/**
  String helpers the page relies on: a substring search (what the user-agent
  regular expression `/Mobile|Android|iPhone|iPad/` does for each alternative)
  and lower-casing (what `toLowerCase` does before a choice is compared with
  "accept").
 */
module Text {

  /** `sub` occurs in `s` starting at index `i`. */
  ghost predicate OccursAt(s: string, sub: string, i: int)
  {
    0 <= i && i + |sub| <= |s| && s[i..i + |sub|] == sub
  }

  /** `sub` occurs somewhere in `s`. */
  ghost predicate Occurs(s: string, sub: string)
  {
    exists i :: OccursAt(s, sub, i)
  }

  /** Dropping the first character of `s` shifts every occurrence one place left. */
  lemma OccursAtShift(s: string, sub: string, i: int)
    requires |s| > 0 && 0 <= i
    ensures OccursAt(s[1..], sub, i) <==> OccursAt(s, sub, i + 1)
  {
  }

  /** When `sub` is not a prefix of `s`, it occurs in `s` exactly when it occurs in the tail. */
  lemma OccursInTail(s: string, sub: string)
    requires |sub| <= |s| && s[..|sub|] != sub
    ensures Occurs(s, sub) <==> Occurs(s[1..], sub)
  {
    if Occurs(s, sub) {
      var i :| OccursAt(s, sub, i);
      assert i != 0;
      OccursAtShift(s, sub, i - 1);
    }
    if Occurs(s[1..], sub) {
      var i :| OccursAt(s[1..], sub, i);
      OccursAtShift(s, sub, i);
    }
  }

  /** Substring test, scanning left to right as a regular-expression search does. */
  function Contains(s: string, sub: string): (r: bool)
    ensures r <==> Occurs(s, sub)
    decreases |s|
  {
    if |s| < |sub| then
      false
    else if s[..|sub|] == sub then
      assert OccursAt(s, sub, 0);
      true
    else
      OccursInTail(s, sub);
      Contains(s[1..], sub)
  }

  /** ASCII lower-casing of one character; every other character is left alone. */
  function LowerChar(c: char): char
  {
    if 'A' <= c <= 'Z' then (c as int + 32) as char else c
  }

  function ToLower(s: string): string
  {
    seq(|s|, i requires 0 <= i < |s| => LowerChar(s[i]))
  }

  /** `ToLower(s) == "accept"` is a case-insensitive comparison with "accept",
      character by character. */
  lemma LowerIsAcceptIff(s: string)
    ensures ToLower(s) == "accept" <==>
              |s| == 6 && forall i :: 0 <= i < 6 ==> s[i] == "accept"[i] || s[i] == "ACCEPT"[i]
  {
  }
}
