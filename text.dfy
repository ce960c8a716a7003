/** The string operations the user controller relies on: lodash's emptiness
    test on a request field, JavaScript's `toLowerCase` restricted to ASCII,
    and `String.prototype.includes`. */
module Text {
  import opened Wrappers

  /** `lodash.isEmpty` on a request field that is either absent or a string:
      an absent value and the zero-length string are empty; nothing is
      trimmed, so a string of blanks is not empty. */
  predicate IsEmpty(field: Option<string>)
    ensures IsEmpty(field) <==> field == None || field == Some("")
  {
    field.None? || |field.value| == 0
  }

  predicate IsUpper(c: char)
  {
    'A' <= c <= 'Z'
  }

  function LowerChar(c: char): char
  {
    if IsUpper(c) then (c as int + 32) as char else c
  }

  /** ASCII `toLowerCase`: maps every upper-case letter to its lower-case
      partner and leaves every other character alone. */
  function ToLowerCase(s: string): (r: string)
    ensures |r| == |s|
    ensures forall i :: 0 <= i < |s| ==> r[i] == LowerChar(s[i])
    ensures forall i :: 0 <= i < |r| ==> !IsUpper(r[i])
  {
    if s == [] then [] else [LowerChar(s[0])] + ToLowerCase(s[1..])
  }

  lemma ToLowerCaseIdempotent(s: string)
    ensures ToLowerCase(ToLowerCase(s)) == ToLowerCase(s)
  {
  }

  predicate StartsWith(s: string, t: string)
  {
    |t| <= |s| && s[..|t|] == t
  }

  /** `t` occurs in `s` starting at position `i`. */
  predicate OccursAt(s: string, t: string, i: int)
  {
    0 <= i <= |s| - |t| && s[i..i + |t|] == t
  }

  /** `s.includes(t)`: some position of `s` starts a copy of `t`
      (the empty string is included in every string). */
  function Includes(s: string, t: string): (r: bool)
    ensures r <==> exists i :: OccursAt(s, t, i)
  {
    if StartsWith(s, t) then
      assert OccursAt(s, t, 0);
      true
    else if s == [] then
      assert forall i :: !OccursAt(s, t, i);
      false
    else
      var r := Includes(s[1..], t);
      forall i ensures OccursAt(s[1..], t, i) <==> OccursAt(s, t, i + 1) {
        if 0 <= i <= |s[1..]| - |t| {
          assert s[1..][i..i + |t|] == s[i + 1..i + 1 + |t|];
        }
      }
      assert !OccursAt(s, t, 0);
      assert forall i :: OccursAt(s, t, i) ==> i >= 1 && OccursAt(s[1..], t, i - 1);
      r
  }
}
