// Register-name splitting (GenParser::LookupReg): a register token is a
// register-file name with no digits in it, then, for a numbered file, the
// register number in decimal.  "r13" is register 13 of file "r"; "null" is
// an unnumbered file; "r13xyz" is no register (it may be an identifier).
module Registers {
  import opened ImmVals
  import opened Diags
  import opened Target

  predicate IsDigit(c: char) { '0' <= c <= '9' }

  function DigitValue(c: char): nat requires IsDigit(c) { (c - '0') as nat }

  predicate AllDigits(s: string) { forall i :: 0 <= i < |s| ==> IsDigit(s[i]) }

  /** The length of the longest prefix of s with no digit in it. */
  function NonDigitPrefix(s: string): (n: nat)
    ensures n <= |s|
    ensures forall i :: 0 <= i < n ==> !IsDigit(s[i])
    ensures n < |s| ==> IsDigit(s[n])
  {
    if s == [] || IsDigit(s[0]) then 0 else 1 + NonDigitPrefix(s[1..])
  }

  /** The number a string of decimal digits spells, most significant first. */
  function DecimalValue(s: string): nat
    requires AllDigits(s)
  {
    if s == [] then 0 else 10 * DecimalValue(s[..|s| - 1]) + DigitValue(s[|s| - 1])
  }

  /** The decimal spelling of n, without leading zeros. */
  function DecimalString(n: nat): (s: string)
    ensures |s| > 0 && AllDigits(s)
  {
    var d := ['0' + (n % 10) as char];
    if n < 10 then d else DecimalString(n / 10) + d
  }

  /** What LookupReg finds for a token spelled s, given the register files by
    * name: the file named by the non-digit prefix and, for a numbered file,
    * the number the rest spells, which must be all digits. */
  function RegLookup(regs: map<string, RegInfo>, s: string): Option<(RegInfo, int)> {
    var n := NonDigitPrefix(s);
    if n == 0 || s[..n] !in regs then None
    else
      var ri := regs[s[..n]];
      if ri.numRegs == 0 then Some((ri, 0))
      else if AllDigits(s[n..]) then Some((ri, DecimalValue(s[n..])))
      else None
  }

  /** Spelling a number in decimal and reading it back gives the number. */
  lemma {:induction false} DecimalRoundTrip(n: nat)
    ensures DecimalValue(DecimalString(n)) == n
  {
    var d := ['0' + (n % 10) as char];
    if n >= 10 {
      var s := DecimalString(n);
      assert s == DecimalString(n / 10) + d;
      assert s[..|s| - 1] == DecimalString(n / 10);
      DecimalRoundTrip(n / 10);
    }
  }

  /** The non-digit prefix of a digit-free name followed by digits is the
    * name. */
  lemma {:induction false} PrefixOfNameAndDigits(name: string, digits: string)
    requires forall i :: 0 <= i < |name| ==> !IsDigit(name[i])
    requires |digits| > 0 && IsDigit(digits[0])
    ensures NonDigitPrefix(name + digits) == |name|
  {
    if name != [] {
      assert (name + digits)[1..] == name[1..] + digits;
      PrefixOfNameAndDigits(name[1..], digits);
    }
  }

  /** The register token a file's name and a register number spell is looked
    * up as that file and that number; an unnumbered file's bare name is
    * looked up as register 0 of it. */
  lemma LookupRegRoundTrip(regs: map<string, RegInfo>, name: string, n: nat)
    requires name in regs && name != []
    requires forall i :: 0 <= i < |name| ==> !IsDigit(name[i])
    ensures regs[name].numRegs > 0 ==> RegLookup(regs, name + DecimalString(n)) == Some((regs[name], n as int))
    ensures regs[name].numRegs == 0 ==> RegLookup(regs, name) == Some((regs[name], 0))
  {
    var s := name + DecimalString(n);
    PrefixOfNameAndDigits(name, DecimalString(n));
    assert s[..|name|] == name;
    assert s[|name|..] == DecimalString(n);
    DecimalRoundTrip(n);
    assert NonDigitPrefix(name) == |name|;
    assert name[..|name|] == name;
  }

  /** A token with a digit first, or with letters after the number of a
    * numbered file, is no register. */
  lemma NotARegister(regs: map<string, RegInfo>, s: string)
    ensures |s| > 0 && IsDigit(s[0]) ==> RegLookup(regs, s).None?
    ensures var n := NonDigitPrefix(s);
      0 < n && s[..n] in regs && regs[s[..n]].numRegs > 0 && !AllDigits(s[n..]) ==> RegLookup(regs, s).None?
  {
  }

  /** PeekReg's translation of old-style math macro registers: an acc number
    * beyond the accumulators names the mme register that many past the mme
    * file's base (acc2 is mme0 where the base is 2), when the platform has
    * one. */
  function AccToMme(mme: Option<RegInfo>, ri: RegInfo, n: int): (RegInfo, int) {
    if IsOldStyleMme(mme, ri, n) then (mme.value, n - mme.value.regNumBase) else (ri, n)
  }

  predicate IsOldStyleMme(mme: Option<RegInfo>, ri: RegInfo, n: int) {
    ri.regName == ARF_ACC && n >= ri.numRegs && mme.Some?
  }

  /** The register an identifier token names, as PeekReg reports it. */
  function PeekRegOf(m: Model, s: string): Option<(RegInfo, int)> {
    match RegLookup(m.regs, s)
    case None => None
    case Some((ri, n)) => Some(AccToMme(m.mme, ri, n))
  }

  /** The warnings PeekReg gives for a register it finds: the old-style
    * access to mme, then a register number out of bounds. */
  function PeekRegWarnings(m: Model, s: string): seq<Warn> {
    match RegLookup(m.regs, s)
    case None => []
    case Some((ri, n)) =>
      var (ri', n') := AccToMme(m.mme, ri, n);
      (if IsOldStyleMme(m.mme, ri, n) then [MmeViaAcc] else []) +
      (if ri'.isRegNumberValid(n') then [] else [RegisterNumberOutOfBounds])
  }

  /** An accumulator number past the accumulators reads as the mme register
    * k when it is k past the mme base; other registers read as they are. */
  lemma AccNamesMme(m: Model, name: string, k: int)
    requires m.mme.Some? && name in m.regs && m.regs[name].regName == ARF_ACC
    requires var n := k + m.mme.value.regNumBase; n >= 0 && n >= m.regs[name].numRegs
    ensures AccToMme(m.mme, m.regs[name], k + m.mme.value.regNumBase) == (m.mme.value, k)
  {
  }
}
