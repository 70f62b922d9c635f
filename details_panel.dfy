/** The integer part of `formatSize` and the `formatStatus` switch of internal/ui/details_panel.go. */
module DetailsPanel {
  import opened Common

  const Unit: int := 1024
  const UnitLetters: string := "KMGTPE"

  function Pow1024(e: nat): (p: int)
    ensures p >= 1
  {
    if e == 0 then 1 else Unit * Pow1024(e - 1)
  }

  /** How many times a size can be divided by 1024 before it drops below 1024:
      0 means plain bytes, k >= 1 means the unit letter `UnitLetters[k - 1]`. */
  function Levels(size: int): nat
    decreases size
  {
    if size < Unit then 0 else 1 + Levels(size / Unit)
  }

  /** What `formatSize` renders, before the `%.1f` formatting of `size / div`. */
  datatype SizeText =
    | InBytes(bytes: int)
    | Scaled(size: int, div: int, exp: nat, unit: char)

  /** `formatSize`: below 1024 (negative sizes included) the bytes are shown unscaled; otherwise
      `div` is the largest power of 1024 not above `size` (so the integer quotient `size / div`
      lies in [1, 1023]), the unit index is at most 5 and `div` stays within int64. */
  method FormatSize(size: int) returns (r: SizeText)
    requires IsInt64(size)
    ensures size < Unit <==> r.InBytes?
    ensures r.InBytes? ==> r.bytes == size
    ensures r.Scaled? ==>
      && r.size == size
      && r.div == Pow1024(r.exp + 1)
      && r.div <= size < Unit * r.div
      && r.exp <= 5
      && r.unit == UnitLetters[r.exp]
      && r.exp + 1 == Levels(size)
  {
    if size < Unit {
      return InBytes(size);
    }
    var div, exp := Unit, 0;
    var n := size / Unit;
    while n >= Unit
      invariant div == Pow1024(exp + 1)
      invariant exp + 1 + Levels(n) == Levels(size)
      decreases n
    {
      div := div * Unit;
      exp := exp + 1;
      n := n / Unit;
    }
    LevelsBracket(size);
    PowBoundsExponent(exp + 1, size);
    r := Scaled(size, div, exp, UnitLetters[exp]);
  }

  /** From the seventh power on, powers of 1024 exceed every int64. */
  lemma {:induction false} PowBeyondInt64(e: nat)
    requires e >= 7
    ensures Pow1024(e) > Int64Max
    decreases e
  {
    if e > 7 {
      PowBeyondInt64(e - 1);
    }
  }

  /** A power of 1024 that fits in an int64 has exponent at most 6. */
  lemma PowBoundsExponent(e: nat, size: int)
    requires Pow1024(e) <= size && IsInt64(size)
    ensures e <= 6
  {
    if e >= 7 {
      PowBeyondInt64(e);
    }
  }

  /** The unit selection brackets the size: 1024^k <= size < 1024^(k+1) for k = Levels(size). */
  lemma {:induction false} LevelsBracket(size: int)
    requires size >= 1
    ensures Pow1024(Levels(size)) <= size < Pow1024(Levels(size) + 1)
    decreases size
  {
    if size >= Unit {
      LevelsBracket(size / Unit);
    }
  }

  /** A larger size never gets a smaller unit. */
  lemma {:induction false} LevelsMonotone(a: int, b: int)
    requires a <= b
    ensures Levels(a) <= Levels(b)
    decreases b
  {
    if a >= Unit {
      LevelsMonotone(a / Unit, b / Unit);
    }
  }

  /** The statuses `formatStatus` translates. */
  const KnownStatuses: set<string> := {"pending", "downloading", "paused", "completed", "failed"}

  /** `formatStatus`: the French label of a known status; any other status unchanged. */
  function FormatStatus(status: string): (shown: string)
    ensures shown == status <==> status !in KnownStatuses
  {
    if status == "pending" then "En attente"
    else if status == "downloading" then "En cours"
    else if status == "paused" then "En pause"
    else if status == "completed" then "Terminé"
    else if status == "failed" then "Échoué"
    else status
  }

  /** The five labels are pairwise distinct: two known statuses with the same label are equal. */
  lemma FormatStatusDistinct(s1: string, s2: string)
    requires s1 in KnownStatuses && s2 in KnownStatuses
    requires FormatStatus(s1) == FormatStatus(s2)
    ensures s1 == s2
  {
  }
}
