/** Annotations, the merge patches that change them, and the counters kept in them. */
module Annotations {
  import opened Json

  type Annotations = map<string, string>

  /** A patch sets a key to a string, or removes it with null. */
  type Patch = map<string, Option<string>>

  /** JSON merge patch on a flat object, section 2 of RFC 7396. */
  function Patched(ann: Annotations, patch: Patch): Annotations {
    map k | k in ann.Keys + patch.Keys && (k in patch ==> patch[k].Some?) :: if k in patch then patch[k].value else ann[k]
  }

  function Get(ann: Annotations, key: string): string {
    if key in ann then ann[key] else ""
  }

  /** What a patch names is as it says, everything else is as it was. */
  lemma PatchedGet(ann: Annotations, patch: Patch, key: string)
    ensures Get(Patched(ann, patch), key) ==
      if key in patch then (if patch[key].Some? then patch[key].value else "") else Get(ann, key)
    ensures key in Patched(ann, patch) <==> if key in patch then patch[key].Some? else key in ann
  {
  }

  // ---- counters ---------------------------------------------------------------------------------------

  function Digit(n: nat): char
    requires n < 10
  {
    "0123456789"[n]
  }

  function DigitValue(c: char): Option<nat> {
    if '0' <= c <= '9' then Some(c as int - '0' as int) else None
  }

  function Itoa(n: nat): string {
    if n < 10 then [Digit(n)] else Itoa(n / 10) + [Digit(n % 10)]
  }

  function Digits(s: string): Option<nat> {
    if s == [] then Some(0)
    else match (Digits(s[..|s| - 1]), DigitValue(s[|s| - 1]))
      case (Some(high), Some(low)) => Some(10 * high + low)
      case _ => None
  }

  /** An optional sign and at least one digit. */
  function Atoi(s: string): Option<int> {
    var digits := if s != [] && (s[0] == '+' || s[0] == '-') then s[1..] else s;
    if digits == [] || Digits(digits).None? then None
    else
      var n: int := Digits(digits).value;
      Some(if s[0] == '-' then -n else n)
  }

  /** A counter reads as zero when it is unusable or negative. */
  function Counter(s: string): nat {
    match Atoi(s)
    case Some(n) => if n < 0 then 0 else n
    case None => 0
  }

  lemma {:induction false} ItoaDigits(n: nat)
    ensures Itoa(n) != [] && Digits(Itoa(n)) == Some(n) && '0' <= Itoa(n)[0] <= '9'
  {
    if n >= 10 {
      ItoaDigits(n / 10);
      var s := Itoa(n);
      assert s[..|s| - 1] == Itoa(n / 10) && s[|s| - 1] == Digit(n % 10);
    } else {
      assert Itoa(n)[..0] == [];
    }
  }

  /** A counter that was written reads back. */
  lemma CounterRoundTrip(n: nat)
    ensures Atoi(Itoa(n)) == Some(n) && Counter(Itoa(n)) == n
  {
    ItoaDigits(n);
  }
}
