/** The length of a text in UTF-8, which the database and the ciphers count in. */
module Utf8 {
  function Utf8Width(c: char): (n: nat)
  {
    if c < '\U{80}' then 1 else if c < '\U{800}' then 2 else if c < '\U{10000}' then 3 else 4
  }

  function Utf8Length(s: string): (n: nat)
  {
    if s == "" then 0 else Utf8Width(s[0]) + Utf8Length(s[1..])
  }

  /** One byte, and one more from each of the code points 128, 2048 and 65536 on. */
  lemma Utf8WidthIs(c: char)
    ensures Utf8Width(c) ==
      1 + (if c as int >= 128 then 1 else 0) + (if c as int >= 2048 then 1 else 0)
      + (if c as int >= 65536 then 1 else 0)
  {
  }

  lemma {:induction false} Utf8LengthAdds(s: string, t: string)
    ensures Utf8Length("") == 0 && Utf8Length(s + t) == Utf8Length(s) + Utf8Length(t)
  {
    if s == "" {
      assert s + t == t;
    } else {
      Utf8LengthAdds(s[1..], t);
      assert (s + t)[1..] == s[1..] + t;
    }
  }
}
