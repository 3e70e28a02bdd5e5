/** Decimal digit strings: the slot numbers typed at the prompts and the
    string keys of the persisted action file. */
module Slots {
  import opened Common

  predicate IsDigit(c: char)
  {
    '0' <= c <= '9'
  }

  predicate AllDigits(s: string)
  {
    forall i :: 0 <= i < |s| ==> IsDigit(s[i])
  }

  /** `str.isdigit()` over ASCII: a non-empty run of decimal digits. */
  predicate IsDigits(s: string)
  {
    |s| > 0 && AllDigits(s)
  }

  function Pow10(n: nat): (p: nat)
    ensures p >= 1
  {
    if n == 0 then 1 else 10 * Pow10(n - 1)
  }

  /** `int(s)` for a run of decimal digits (leading zeros allowed): a run of
      `|s|` digits stays below `10^|s|`. */
  function DigitsValue(s: string): (v: nat)
    requires AllDigits(s)
    ensures v < Pow10(|s|)
  {
    if |s| == 0 then 0
    else DigitsValue(s[..|s| - 1]) * 10 + (s[|s| - 1] as int - '0' as int)
  }

  /** A leading zero does not change the value: `int("03") == int("3")`. */
  lemma {:induction false} DigitsValueLeadingZero(s: string)
    requires AllDigits(s)
    ensures AllDigits(['0'] + s)
    ensures DigitsValue(['0'] + s) == DigitsValue(s)
  {
    var z := ['0'] + s;
    assert forall i :: 0 <= i < |z| ==> IsDigit(z[i]);
    if |s| > 0 {
      var init := s[..|s| - 1];
      assert z[..|z| - 1] == ['0'] + init;
      assert AllDigits(init);
      DigitsValueLeadingZero(init);
    } else {
      assert z[..0] == [];
    }
  }

  function DigitChar(d: nat): (c: char)
    requires d < 10
    ensures IsDigit(c) && c as int - '0' as int == d
  {
    (d + '0' as int) as char
  }

  /** `str(n)`: the canonical decimal spelling of `n`, which reads back as `n`. */
  function Decimal(n: nat): (s: string)
    ensures IsDigits(s)
    ensures DigitsValue(s) == n
    ensures |s| == 1 || s[0] != '0'
  {
    if n < 10 then [DigitChar(n)]
    else
      var prefix := Decimal(n / 10);
      var s := prefix + [DigitChar(n % 10)];
      assert s[..|s| - 1] == prefix;
      s
  }

  /** The prompt check `s.isdigit() and 1 <= int(s) <= 10`. */
  function ParseSlot(s: string): (r: Option<Slot>)
    ensures r.Some? <==> IsDigits(s) && 1 <= DigitsValue(s) <= 10
    ensures r.Some? ==> r.value == DigitsValue(s)
  {
    if IsDigits(s) && 1 <= DigitsValue(s) <= 10 then Some(DigitsValue(s)) else None
  }

  /** Every slot number, written out, is accepted at the prompt as itself. */
  lemma ParseSlotOfDecimal(n: Slot)
    ensures ParseSlot(Decimal(n)) == Some(n)
  {
  }

  /** Answers the slot prompt accepts and rejects: leading zeros are accepted;
      zero, eleven, the empty answer, a sign or a blank are not. */
  lemma ParseSlotExamples()
    ensures ParseSlot("3") == Some(3)
    ensures ParseSlot("03") == Some(3)
    ensures ParseSlot("10") == Some(10)
    ensures ParseSlot("0") == None
    ensures ParseSlot("11") == None
    ensures ParseSlot("") == None
    ensures ParseSlot("-3") == None
    ensures ParseSlot(" 3") == None
  {
    assert DigitsValue("03") == DigitsValue("0") * 10 + 3 by {
      assert "03"[..1] == "0";
    }
    assert DigitsValue("10") == DigitsValue("1") * 10 + 0 by {
      assert "10"[..1] == "1";
    }
    assert DigitsValue("11") == DigitsValue("1") * 10 + 1 by {
      assert "11"[..1] == "1";
    }
    assert !IsDigit('-');
    assert !IsDigit(' ');
  }

  /** A key of the persisted file that names a slot in canonical form
      ("1" .. "10", no leading zero). */
  function KeySlot(k: string): (r: Option<Slot>)
    ensures r.Some? ==> k == Decimal(r.value)
  {
    match ParseSlot(k)
    case Some(n) => if Decimal(n) == k then Some(n) else None
    case None => None
  }

  /** Writing a slot as its key and reading the key back gives the slot. */
  lemma KeySlotOfDecimal(n: Slot)
    ensures KeySlot(Decimal(n)) == Some(n)
  {
    ParseSlotOfDecimal(n);
  }

  /** Two slots never share a key. */
  lemma DecimalInjective(m: nat, n: nat)
    requires Decimal(m) == Decimal(n)
    ensures m == n
  {
  }
}
