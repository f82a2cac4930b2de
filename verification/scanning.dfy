/** What the hand-written scanners share. */
module Scanning {
  /** Where `c` first occurs, or the length. */
  function Find(s: string, c: char): (n: nat)
    ensures n <= |s|
  {
    if s == "" || s[0] == c then 0 else 1 + Find(s[1..], c)
  }

  lemma {:induction false} FindFirst(s: string, c: char)
    ensures forall i :: 0 <= i < Find(s, c) ==> s[i] != c
    ensures Find(s, c) < |s| ==> s[Find(s, c)] == c
  {
    if s != "" && s[0] != c {
      FindFirst(s[1..], c);
    }
  }

  /** `char::is_alphanumeric`: known on ASCII; `wide` decides the rest of Unicode. */
  predicate Alphanumeric(c: char, wide: char -> bool) {
    'a' <= c <= 'z' || 'A' <= c <= 'Z' || '0' <= c <= '9' || (c > '\U{7F}' && wide(c))
  }

  predicate Continues(c: char, dash: bool, wide: char -> bool) {
    Alphanumeric(c, wide) || c == '_' || (dash && c == '-')
  }

  /** How many leading characters belong to a word, or to a name when `dash` is allowed too. */
  function Leading(s: string, dash: bool, wide: char -> bool): (n: nat)
    ensures n <= |s|
  {
    if s != "" && Continues(s[0], dash, wide) then 1 + Leading(s[1..], dash, wide) else 0
  }

  /** The inner loops over `chars.peek()`. */
  method TakeWhile(input: string, start: nat, dash: bool, wide: char -> bool) returns (end: nat)
    requires start <= |input|
    ensures start <= end <= |input| && end == start + Leading(input[start..], dash, wide)
  {
    end := start;
    while end < |input| && Continues(input[end], dash, wide)
      invariant start <= end <= |input|
      invariant Leading(input[start..], dash, wide) == end - start + Leading(input[end..], dash, wide)
    {
      assert input[end..][1..] == input[end + 1..];
      end := end + 1;
    }
  }

  lemma {:induction false} LeadingAll(word: string, rest: string, dash: bool, wide: char -> bool)
    requires forall i :: 0 <= i < |word| ==> Continues(word[i], dash, wide)
    requires rest == "" || !Continues(rest[0], dash, wide)
    ensures Leading(word + rest, dash, wide) == |word|
  {
    if word == "" {
      assert word + rest == rest;
    } else {
      assert (word + rest)[1..] == word[1..] + rest;
      LeadingAll(word[1..], rest, dash, wide);
    }
  }

  /** The first character of a text, with another text after it. */
  lemma HeadOf(text: string, rest: string)
    requires text != ""
    ensures text + rest != "" && (text + rest)[0] == text[0] && (text + rest)[1..] == text[1..] + rest
    ensures forall more: string :: [text[0]] + (text[1..] + more) == text + more
  {
    assert [text[0]] + text[1..] == text;
    forall more: string ensures [text[0]] + (text[1..] + more) == text + more {
      assert [text[0]] + (text[1..] + more) == [text[0]] + text[1..] + more;
    }
  }
}
