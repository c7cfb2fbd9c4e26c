/** The text of the PID file `upload_process.pid`: written with `str(pid)` when the
    worker starts and read back with `int(f.read().strip())` on the next launch. */
module PidText {
  import opened Wrappers

  predicate IsDigit(c: char) {
    '0' <= c <= '9'
  }

  predicate AllDigits(s: string) {
    forall i :: 0 <= i < |s| ==> IsDigit(s[i])
  }

  /** The characters `str.strip()` removes that this model knows of: the ASCII
      whitespace (tab to carriage return, space) and the separators 0x1C-0x1F. */
  predicate IsSpace(c: char) {
    c == ' ' || 9 <= c as int <= 13 || 28 <= c as int <= 31
  }

  function DigitChar(d: nat): (c: char)
    requires d < 10
    ensures IsDigit(c)
  {
    ('0' as int + d) as char
  }

  /** `str(n)` for a non-negative integer: its decimal digits, no leading zeros. */
  function ShowNat(n: nat): (r: string)
    ensures |r| >= 1 && AllDigits(r)
    ensures n >= 10 ==> r[0] != '0'
    decreases n
  {
    if n < 10 then [DigitChar(n)] else ShowNat(n / 10) + [DigitChar(n % 10)]
  }

  /** `str(pid)`, as written to the PID file. */
  function Show(n: int): string {
    if n < 0 then "-" + ShowNat(-n) else ShowNat(n)
  }

  /** The value of a run of decimal digits, leading zeros allowed. */
  function DigitsValue(s: string): nat
    requires AllDigits(s)
  {
    if s == [] then 0 else 10 * DigitsValue(s[..|s| - 1]) + (s[|s| - 1] as int - '0' as int)
  }

  function StripLeft(s: string): (r: string)
    ensures |r| > 0 ==> !IsSpace(r[0])
    decreases |s|
  {
    if |s| > 0 && IsSpace(s[0]) then StripLeft(s[1..]) else s
  }

  function StripRight(s: string): (r: string)
    ensures |r| > 0 ==> !IsSpace(r[|r| - 1])
    decreases |s|
  {
    if |s| > 0 && IsSpace(s[|s| - 1]) then StripRight(s[..|s| - 1]) else s
  }

  /** `s.strip()`. */
  function Strip(s: string): string {
    StripRight(StripLeft(s))
  }

  /** `int(text.strip())`: an optional sign and one or more decimal digits; any
      other content makes `int` raise, modelled as `None`. */
  function Parse(text: string): Option<int> {
    var t := Strip(text);
    var negative := |t| > 0 && t[0] == '-';
    var digits := if |t| > 0 && (t[0] == '-' || t[0] == '+') then t[1..] else t;
    if |digits| > 0 && AllDigits(digits) then
      var value: int := DigitsValue(digits);
      Some(if negative then -value else value)
    else
      None
  }

  lemma {:induction false} DigitsOfShowNat(n: nat)
    ensures DigitsValue(ShowNat(n)) == n
    decreases n
  {
    if n >= 10 {
      DigitsOfShowNat(n / 10);
      var s := ShowNat(n / 10) + [DigitChar(n % 10)];
      assert s[..|s| - 1] == ShowNat(n / 10);
    }
  }

  lemma ShowHasNoSpace(n: int)
    ensures |Show(n)| > 0 && !IsSpace(Show(n)[0]) && !IsSpace(Show(n)[|Show(n)| - 1])
  {
  }

  /** Reading the PID file back gives exactly the PID that was written. */
  lemma ParseShow(n: int)
    ensures Parse(Show(n)) == Some(n)
    ensures Strip(Show(n)) == Show(n)
  {
    var s := Show(n);
    ShowHasNoSpace(n);
    assert StripLeft(s) == s;
    assert Strip(s) == s;
    DigitsOfShowNat(if n < 0 then -n else n);
    if n < 0 {
      assert s[1..] == ShowNat(-n);
    }
  }

  /** Whitespace before and after the number, each side on its own (such as only the
      newline an editor adds at the end), is ignored. */
  lemma ParseIgnoresPadding(n: int, left: string, right: string)
    requires forall i :: 0 <= i < |left| ==> IsSpace(left[i])
    requires forall i :: 0 <= i < |right| ==> IsSpace(right[i])
    ensures Parse(left + Show(n) + right) == Some(n)
  {
    var s := Show(n);
    ShowHasNoSpace(n);
    StripPadding(left, s, right);
    ParseShow(n);
    ParseSeesStripped(left + s + right, s);
  }

  /** `int(text.strip())` depends on the stripped text only. */
  lemma ParseSeesStripped(x: string, s: string)
    requires Strip(x) == s && Strip(s) == s
    ensures Parse(x) == Parse(s)
  {
  }

  /** Stripping removes exactly the padding around a text with no space at its ends. */
  lemma StripPadding(left: string, s: string, right: string)
    requires forall i :: 0 <= i < |left| ==> IsSpace(left[i])
    requires forall i :: 0 <= i < |right| ==> IsSpace(right[i])
    requires |s| > 0 && !IsSpace(s[0]) && !IsSpace(s[|s| - 1])
    ensures Strip(left + s + right) == s
  {
    StripLeftPadding(left, s + right);
    assert left + s + right == left + (s + right);
    StripRightPadding(s, right);
  }

  lemma {:induction false} StripLeftPadding(pad: string, s: string)
    requires forall i :: 0 <= i < |pad| ==> IsSpace(pad[i])
    requires |s| > 0 && !IsSpace(s[0])
    ensures StripLeft(pad + s) == StripLeft(s) == s
    decreases |pad|
  {
    if |pad| > 0 {
      assert (pad + s)[1..] == pad[1..] + s;
      StripLeftPadding(pad[1..], s);
    }
  }

  lemma {:induction false} StripRightPadding(s: string, pad: string)
    requires forall i :: 0 <= i < |pad| ==> IsSpace(pad[i])
    requires |s| > 0 && !IsSpace(s[|s| - 1])
    ensures StripRight(s + pad) == s
    decreases |pad|
  {
    if |pad| > 0 {
      assert (s + pad)[..|s + pad| - 1] == s + pad[..|pad| - 1];
      StripRightPadding(s, pad[..|pad| - 1]);
    } else {
      assert s + pad == s;
    }
  }
}
