/** Small vocabulary shared by every component of the model. */
module Common {

  datatype Option<+T> = None | Some(value: T)

  /** One UTF-16 code unit. A JavaScript string is a sequence of them, whether or not its surrogates pair up. */
  type Unit = u: int | 0 <= u < 0x1_0000

  type Text = seq<Unit>

  type Byte = b: int | 0 <= b < 0x100

  type Bytes = seq<Byte>

  /** `Number.MAX_SAFE_INTEGER`. */
  const MAX_SAFE_INTEGER := 0x1F_FFFF_FFFF_FFFF

  const UINT256_LIMIT := 0x1_0000_0000_0000_0000_0000_0000_0000_0000_0000_0000_0000_0000_0000_0000_0000_0000

  /** The code units of a literal. */
  function T(s: string): Text {
    seq(|s|, i requires 0 <= i < |s| => s[i] as int % 0x1_0000)
  }

  /** `String(n)` of an integer. */
  function DecimalText(n: int): Text
    decreases n < 0, if n < 0 then -n else n
  {
    if n < 0 then [0x2d] + DecimalText(-n)
    else if n < 10 then [0x30 + n]
    else DecimalText(n / 10) + [0x30 + n % 10]
  }

  predicate IsDigit(u: Unit) {
    0x30 <= u <= 0x39
  }

  predicate IsLowerHex(u: Unit) {
    IsDigit(u) || 0x61 <= u <= 0x66
  }

  /** `/^(0|[1-9][0-9]*)$/` */
  predicate IsCanonicalDecimal(t: Text) {
    && |t| > 0
    && (forall i | 0 <= i < |t| :: IsDigit(t[i]))
    && (t[0] == 0x30 ==> |t| == 1)
  }

  /** The number a decimal text spells. */
  function DecimalValue(t: Text): nat
    requires forall i | 0 <= i < |t| :: IsDigit(t[i])
  {
    if t == [] then 0
    else
      assert IsDigit(t[|t| - 1]);
      DecimalValue(t[..|t| - 1]) * 10 + (t[|t| - 1] as int - 0x30)
  }

  /** The text of a number is canonical and spells that number. */
  lemma {:induction false} DecimalTextSpells(n: nat)
    ensures IsCanonicalDecimal(DecimalText(n)) && DecimalValue(DecimalText(n)) == n
    ensures n > 0 ==> DecimalText(n)[0] != 0x30
  {
    if n < 10 {
      assert DecimalText(n)[..0] == [];
    } else {
      DecimalTextSpells(n / 10);
      assert DecimalText(n)[..|DecimalText(n)| - 1] == DecimalText(n / 10);
    }
  }

  /** A canonical decimal below 2^256. */
  predicate IsUint256Decimal(t: Text) {
    IsCanonicalDecimal(t) && DecimalValue(t) < UINT256_LIMIT
  }

  /** A canonical decimal is the text of the number it spells. */
  lemma {:induction false} CanonicalIsSpelled(t: Text)
    requires IsCanonicalDecimal(t)
    ensures DecimalText(DecimalValue(t)) == t
    ensures |t| > 1 ==> DecimalValue(t) >= 10
  {
    var front, last := t[..|t| - 1], t[|t| - 1];
    assert IsDigit(last);
    if front != [] {
      assert forall i | 0 <= i < |front| :: front[i] == t[i];
      CanonicalIsSpelled(front);
      assert DecimalValue(front) >= 1 by { LeadingDigit(front); }
      assert t == front + [last];
    } else {
      assert t == [last] && DecimalValue([]) == 0;
    }
  }

  lemma {:induction false} LeadingDigit(t: Text)
    requires |t| > 0 && (forall i | 0 <= i < |t| :: IsDigit(t[i])) && t[0] != 0x30
    ensures DecimalValue(t) >= 1
  {
    assert IsDigit(t[|t| - 1]);
    if |t| > 1 { LeadingDigit(t[..|t| - 1]); } else { assert t[..0] == []; }
  }

  /** The accepted decimals are exactly the texts of the numbers of 256 bits. */
  lemma Uint256DecimalIs(t: Text)
    ensures IsUint256Decimal(t) <==> exists n: nat | n < UINT256_LIMIT :: t == DecimalText(n)
  {
    if IsUint256Decimal(t) { CanonicalIsSpelled(t); }
    if n: nat :| n < UINT256_LIMIT && t == DecimalText(n) { DecimalTextSpells(n); }
  }

  /** `/^sha256:[0-9a-f]{64}$/` */
  predicate IsSha256Digest(t: Text) {
    && |t| == 71
    && t[..7] == T("sha256:")
    && forall i | 7 <= i < 71 :: IsLowerHex(t[i])
  }

  /** A non-negative safe integer, which every stored time must be. */
  predicate IsSafeTime(n: int) {
    0 <= n <= MAX_SAFE_INTEGER
  }
}
