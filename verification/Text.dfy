/** The few string operations component ids go through. */
module Text {

  /** `c.isspace()` */
  predicate IsSpace(c: char) {
    || '\t' <= c <= '\r'
    || '\U{1C}' <= c <= ' '
    || c == '\U{85}' || c == '\U{A0}' || c == '\U{1680}'
    || '\U{2000}' <= c <= '\U{200A}'
    || c == '\U{2028}' || c == '\U{2029}' || c == '\U{202F}' || c == '\U{205F}' || c == '\U{3000}'
  }

  /** `s.strip()` */
  function Strip(s: string): (r: string)
    ensures r != [] ==> !IsSpace(r[0]) && !IsSpace(r[|r| - 1])
    ensures |r| <= |s|
    ensures r == s <==> s == [] || (!IsSpace(s[0]) && !IsSpace(s[|s| - 1]))
  {
    if s == [] then []
    else if IsSpace(s[0]) then Strip(s[1..])
    else if IsSpace(s[|s| - 1]) then Strip(s[..|s| - 1])
    else s
  }

  /** The white space of Unicode, by code point. */
  lemma WhiteSpaceIs(c: char)
    ensures IsSpace(c) <==>
              || 9 <= c as int <= 13 || 28 <= c as int <= 32 || c as int == 133 || c as int == 160
              || c as int == 5760 || 8192 <= c as int <= 8202 || c as int == 8232 || c as int == 8233
              || c as int == 8239 || c as int == 8287 || c as int == 12288
  {}

  predicate Blank(s: string) {
    forall i :: 0 <= i < |s| ==> IsSpace(s[i])
  }

  /** Stripping takes white space off both ends and nothing else. */
  lemma {:induction false} StripIsMiddle(s: string) returns (front: string, back: string)
    ensures s == front + Strip(s) + back && Blank(front) && Blank(back)
    ensures Strip(s) != "" ==> !IsSpace(Strip(s)[0]) && !IsSpace(Strip(s)[|Strip(s)| - 1])
    decreases |s|
  {
    hide IsSpace;
    front, back := "", "";
    if s != "" && IsSpace(s[0]) {
      front, back := StripIsMiddle(s[1..]);
      var r := Strip(s[1..]);
      assert s == [s[0]] + s[1..] == [s[0]] + (front + r + back) == ([s[0]] + front) + r + back;
      front := [s[0]] + front;
    } else if s != "" && IsSpace(s[|s| - 1]) {
      front, back := StripIsMiddle(s[..|s| - 1]);
      var r, last := Strip(s[..|s| - 1]), [s[|s| - 1]];
      assert s == s[..|s| - 1] + last == (front + r + back) + last == front + r + (back + last);
      back := back + last;
    }
  }

  function Digit(d: nat): (c: char)
    requires d < 10
    ensures '0' <= c <= '9' && (c as int) - ('0' as int) == d
  {
    ('0' as int + d) as char
  }

  /** `str(n)` */
  function Decimal(n: nat): (s: string)
    ensures s != []
    ensures Value(s) == n
  {
    if n < 10 then [Digit(n)] else Decimal(n / 10) + [Digit(n % 10)]
  }

  /** Reading digits back, which makes `Decimal` injective. */
  function Value(s: string): int {
    if s == [] then 0 else Value(s[..|s| - 1]) * 10 + (s[|s| - 1] as int - '0' as int)
  }

  /** `f"{requested_id}#{suffix}"` */
  function Numbered(id: string, n: nat): string {
    id + "#" + Decimal(n)
  }

  /** Digits only, and no leading zero. */
  lemma {:induction false} DecimalIsPlain(n: nat)
    ensures forall i :: 0 <= i < |Decimal(n)| ==> '0' <= Decimal(n)[i] <= '9'
    ensures Decimal(n)[0] == '0' ==> Decimal(n) == "0" && n == 0
  {
    if n >= 10 { DecimalIsPlain(n / 10); }
  }

  /** Base ten, most significant digit first. */
  lemma DecimalExamples()
    ensures Decimal(0) == "0" && Decimal(7) == "7" && Decimal(10) == "10" && Decimal(305) == "305"
    ensures Numbered("cache", 2) == "cache#2"
  {
    assert Decimal(30) == "30";
  }

  lemma NumberedIsInjective(id: string, a: nat, b: nat)
    requires Numbered(id, a) == Numbered(id, b)
    ensures a == b
  {
    var k := |id| + 1;
    assert Numbered(id, a)[k..] == Decimal(a) && Numbered(id, b)[k..] == Decimal(b);
  }

  function Suffixed(id: string, n: nat): (r: set<string>)
    ensures forall k :: 2 <= k < n ==> Numbered(id, k) in r
    ensures forall s :: s in r ==> exists k :: 2 <= k < n && s == Numbered(id, k)
    ensures |r| == if n <= 2 then 0 else n - 2
  {
    if n <= 2 then {}
    else
      var rest := Suffixed(id, n - 1);
      assert Numbered(id, n - 1) !in rest by {
        if Numbered(id, n - 1) in rest {
          var k :| 2 <= k < n - 1 && Numbered(id, n - 1) == Numbered(id, k);
          NumberedIsInjective(id, n - 1, k);
        }
      }
      rest + {Numbered(id, n - 1)}
  }
}
