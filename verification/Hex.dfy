// The fixed-width numbers in panic.c's output.
module Hex {
  type Word = w: nat | w < 0x1_0000_0000_0000_0000

  function Digit(d: nat): char
    requires d < 16
  {
    "0123456789abcdef"[d]
  }

  function DigitValue(c: char): nat {
    if '0' <= c <= '9' then c as int - '0' as int
    else if 'a' <= c <= 'f' then c as int - 'a' as int + 10
    else 0
  }

  lemma DigitRead(d: nat)
    requires d < 16
    ensures DigitValue(Digit(d)) == d
  {}

  function Pow16(n: nat): nat {
    if n == 0 then 1 else 16 * Pow16(n - 1)
  }

  // The last n hexadecimal digits of w: printf's %0nx.
  function Padded(w: nat, n: nat): (s: string)
    ensures |s| == n
  {
    if n == 0 then "" else Padded(w / 16, n - 1) + [Digit(w % 16)]
  }

  function ReadHex(s: string): nat {
    if s == "" then 0 else 16 * ReadHex(s[..|s| - 1]) + DigitValue(s[|s| - 1])
  }

  lemma {:induction false} PaddedReads(w: nat, n: nat)
    requires w < Pow16(n)
    ensures ReadHex(Padded(w, n)) == w
  {
    if n > 0 {
      PaddedReads(w / 16, n - 1);
      DigitRead(w % 16);
      var s := Padded(w, n);
      assert s[..n - 1] == Padded(w / 16, n - 1);
    }
  }

  // Sixteen digits hold any machine word.
  lemma WordReads(w: Word)
    ensures ReadHex(Padded(w, 16)) == w
  {
    Pow16Of16();
    PaddedReads(w, 16);
  }

  lemma Pow16Of16()
    ensures Pow16(16) == 0x1_0000_0000_0000_0000
  {
    assert Pow16(4) == 0x10000;
    assert Pow16(8) == 0x1_0000_0000;
    assert Pow16(12) == 0x1_0000_0000_0000;
  }

  // printf's %x: no leading zeros.
  function Plain(w: nat): string {
    if w < 16 then [Digit(w)] else Plain(w / 16) + [Digit(w % 16)]
  }

  lemma {:induction false} PlainReads(w: nat)
    ensures ReadHex(Plain(w)) == w
  {
    if w < 16 {
      DigitRead(w);
      assert [Digit(w)][..0] == "";
    } else {
      PlainReads(w / 16);
      DigitRead(w % 16);
      var s := Plain(w);
      assert s[..|s| - 1] == Plain(w / 16);
    }
  }

  // It begins with a zero only if it is the digit zero.
  lemma {:induction false} PlainIs(w: nat)
    ensures Plain(w) != "" && (Plain(w)[0] == '0' <==> w == 0)
  {
    if w >= 16 {
      PlainIs(w / 16);
    }
  }

  // printf's %3d, for at most three digits.
  function Width3(i: nat): string
    requires i < 1000
  {
    [if i < 100 then ' ' else Digit(i / 100),
     if i < 10 then ' ' else Digit(i / 10 % 10),
     Digit(i % 10)]
  }

  function ReadWidth3(s: string): nat
    requires |s| == 3
  {
    100 * DigitValue(s[0]) + 10 * DigitValue(s[1]) + DigitValue(s[2])
  }

  lemma ThreeDigits(i: nat)
    requires i < 1000
    ensures i / 100 < 10 && i == 100 * (i / 100) + 10 * (i / 10 % 10) + i % 10
    ensures i < 100 ==> i / 100 == 0
    ensures i < 10 ==> i / 10 % 10 == 0
  {}

  // Blanks come before the number, and no zeros.
  lemma Width3Is(i: nat)
    requires i < 1000
    ensures |Width3(i)| == 3 && Width3(i)[2] != ' '
    ensures Width3(i)[0] == ' ' <==> i < 100
    ensures Width3(i)[1] == ' ' <==> i < 10
  {
    ThreeDigits(i);
    forall d: nat | d < 16 ensures Digit(d) != ' ' {}
  }

  lemma {:induction false} Width3Reads(i: nat)
    requires i < 1000
    ensures ReadWidth3(Width3(i)) == i
  {
    ThreeDigits(i);
    var (a, b, c) := (i / 100, i / 10 % 10, i % 10);
    assert DigitValue(' ') == 0;
    DigitRead(a);
    DigitRead(b);
    DigitRead(c);
    hide DigitValue, Digit;
    assert ReadWidth3(Width3(i)) == 100 * a + 10 * b + c;
  }
}
