/** Types and string helpers shared by the room backend's modules. */
module Common {

  datatype Option<+T> = None | Some(value: T)

  type RoomId = string
  type UserId = string

  /** White space as Go's unicode.IsSpace sees it. */
  predicate IsSpace(c: char) {
    || c in {'\t', '\n', '\U{000B}', '\U{000C}', '\r', ' ', '\U{0085}', '\U{00A0}', '\U{1680}'}
    || '\U{2000}' <= c <= '\U{200A}'
    || c in {'\U{2028}', '\U{2029}', '\U{202F}', '\U{205F}', '\U{3000}'}
  }

  /** By code point: tab to carriage return, space, next line, no-break space, and the Unicode spaces and separators. */
  lemma SpaceSpec(c: char)
    ensures IsSpace(c) <==> var n := c as int;
      || 9 <= n <= 13 || n == 32 || n == 0x85 || n == 0xA0 || n == 0x1680 || 0x2000 <= n <= 0x200A
      || n == 0x2028 || n == 0x2029 || n == 0x202F || n == 0x205F || n == 0x3000
  {
  }

  /** strings.TrimSpace */
  function TrimSpace(s: string): (t: string)
    ensures t != [] ==> !IsSpace(t[0]) && !IsSpace(t[|t| - 1])
    ensures t == [] <==> forall c :: c in s ==> IsSpace(c)
  {
    if s == [] then s
    else if IsSpace(s[0]) then
      assert s == [s[0]] + s[1..];
      TrimSpace(s[1..])
    else if IsSpace(s[|s| - 1]) then
      assert s == s[..|s| - 1] + [s[|s| - 1]];
      TrimSpace(s[..|s| - 1])
    else s
  }

  predicate AllSpace(s: string) {
    forall c :: c in s ==> IsSpace(c)
  }

  lemma Reassociate(a: string, b: string, c: string, d: string)
    ensures a + (b + c + d) == (a + b) + c + d && (a + b + c) + d == a + b + (c + d)
  {
  }

  /** The result is the text less white space at either end. */
  lemma {:induction false} TrimSpaceCutsEnds(s: string) returns (front: string, back: string)
    ensures s == front + TrimSpace(s) + back && AllSpace(front) && AllSpace(back)
    decreases |s|
  {
    front, back := "", "";
    if s == [] {
    } else if IsSpace(s[0]) {
      var rest := s[1..];
      assert s == [s[0]] + rest && TrimSpace(s) == TrimSpace(rest);
      hide *;
      front, back := TrimSpaceCutsEnds(rest);
      Reassociate([s[0]], front, TrimSpace(rest), back);
      SpaceAndMore([s[0]], front);
      front := [s[0]] + front;
    } else if IsSpace(s[|s| - 1]) {
      var rest, last := s[..|s| - 1], s[|s| - 1..];
      assert s == rest + last && TrimSpace(s) == TrimSpace(rest) && last == [s[|s| - 1]];
      hide *;
      front, back := TrimSpaceCutsEnds(rest);
      Reassociate(front, TrimSpace(rest), back, last);
      SpaceAndMore(back, last);
      back := back + last;
    }
  }

  lemma SpaceAndMore(a: string, b: string)
    requires forall c :: c in a ==> IsSpace(c)
    requires forall c :: c in b ==> IsSpace(c)
    ensures AllSpace(a + b)
  {
  }

  lemma SubsetCardinality<T>(a: set<T>, b: set<T>)
    requires a <= b
    ensures |a| <= |b|
  {
    assert b == a + (b - a);
  }
}
