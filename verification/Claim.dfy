/**
 The position claim of an access token (go/lib/authz/claim.go): a list of position ids is folded
 into a bit set, the bit set is printed in base 62, and the reader undoes both steps.
 */
module Claim {
  import opened Prelude
  import opened Numeral

  // Bits of an unbounded natural, as big.Int defines them.

  predicate Bit(n: nat, i: nat)
  {
    if i == 0 then n % 2 == 1 else Bit(n / 2, i - 1)
  }

  function SetBit(n: nat, i: nat): (r: nat)
  {
    if i == 0 then (if n % 2 == 1 then n else n + 1)
    else 2 * SetBit(n / 2, i - 1) + n % 2
  }

  function BitLen(n: nat): nat
  {
    if n == 0 then 0 else 1 + BitLen(n / 2)
  }

  lemma {:induction false} BitOfSetBit(n: nat, i: nat, j: nat)
    ensures Bit(SetBit(n, i), j) <==> i == j || Bit(n, j)
  {
    if i > 0 {
      assert SetBit(n, i) / 2 == SetBit(n / 2, i - 1);
      if j > 0 {
        BitOfSetBit(n / 2, i - 1, j - 1);
      }
    } else if j > 0 {
      assert SetBit(n, i) / 2 == n / 2;
    }
  }

  lemma {:induction false} BitBelowLength(n: nat, i: nat)
    requires Bit(n, i)
    ensures i < BitLen(n)
  {
    if i > 0 {
      BitBelowLength(n / 2, i - 1);
    }
  }

  lemma {:induction false} BitsDetermineNumber(m: nat, n: nat)
    requires forall i: nat :: Bit(m, i) <==> Bit(n, i)
    ensures m == n
    decreases m + n
  {
    assert Bit(m, 0) <==> Bit(n, 0);
    if m != 0 || n != 0 {
      forall i: nat ensures Bit(m / 2, i) <==> Bit(n / 2, i) {
        assert Bit(m, i + 1) <==> Bit(n, i + 1);
      }
      BitsDetermineNumber(m / 2, n / 2);
    }
  }

  // Folding ids into a bit set, and listing a bit set.

  ghost predicate IsBitSetOf(n: nat, ids: seq<int>)
  {
    forall i: nat :: Bit(n, i) <==> i in ids
  }

  predicate StrictlyAscending(s: seq<int>)
  {
    forall i, j :: 0 <= i < j < |s| ==> s[i] < s[j]
  }

  function BitSetOf(ids: seq<nat>): nat
  {
    if ids == [] then 0 else SetBit(BitSetOf(ids[..|ids| - 1]), ids[|ids| - 1])
  }

  lemma {:induction false} BitSetOfBits(ids: seq<nat>)
    ensures IsBitSetOf(BitSetOf(ids), ids)
  {
    forall i: nat ensures Bit(BitSetOf(ids), i) <==> i in ids {
      if ids == [] {
        ZeroHasNoBits(i);
      } else {
        var init := ids[..|ids| - 1];
        BitSetOfBits(init);
        BitOfSetBit(BitSetOf(init), ids[|ids| - 1], i);
        assert ids == init + [ids[|ids| - 1]];
      }
    }
  }

  lemma {:induction false} ZeroHasNoBits(i: nat)
    ensures !Bit(0, i)
  {
    if i > 0 {
      ZeroHasNoBits(i - 1);
    }
  }

  function Members(n: nat, upTo: nat): (r: seq<nat>)
  {
    if upTo == 0 then []
    else Members(n, upTo - 1) + (if Bit(n, upTo - 1) then [upTo - 1] else [])
  }

  lemma {:induction false} MembersList(n: nat, upTo: nat)
    ensures StrictlyAscending(Members(n, upTo))
    ensures forall i :: i in Members(n, upTo) <==> 0 <= i < upTo && Bit(n, i)
  {
    if upTo > 0 {
      MembersList(n, upTo - 1);
      var init := Members(n, upTo - 1);
      forall i ensures i in Members(n, upTo) <==> 0 <= i < upTo && Bit(n, i) {}
      assert forall k :: 0 <= k < |init| ==> init[k] in init;
    }
  }

  /** `None` is the panic of big.Int.SetBit on a negative index. */
  method IntsToBitSet(ids: seq<int>) returns (r: Option<nat>)
    ensures r.None? <==> exists k :: 0 <= k < |ids| && ids[k] < 0
    ensures r.Some? ==> IsBitSetOf(r.value, ids) && r.value == BitSetOf(ids)
  {
    var bits: nat := 0;
    for k := 0 to |ids|
      invariant forall j :: 0 <= j < k ==> ids[j] >= 0
      invariant bits == BitSetOf(ids[..k])
    {
      if ids[k] < 0 {
        return None;
      }
      bits := SetBit(bits, ids[k]);
      assert ids[..k + 1][..k] == ids[..k];
    }
    assert ids[..|ids|] == ids;
    BitSetOfBits(ids);
    return Some(bits);
  }

  /** `None` is the panic on a negative number. */
  method BitSetToInts(n: int) returns (r: Option<seq<nat>>)
    ensures r.None? <==> n < 0
    ensures r.Some? ==> StrictlyAscending(r.value) && IsBitSetOf(n, r.value)
    ensures r.Some? ==> r.value == Members(n, BitLen(n))
  {
    if n < 0 {
      return None;
    }
    var ids: seq<nat> := [];
    for i := 0 to BitLen(n)
      invariant ids == Members(n, i)
    {
      if Bit(n, i) {
        ids := ids + [i];
      }
    }
    MembersOfNumber(n);
    return Some(ids);
  }

  lemma MembersOfNumber(n: nat)
    ensures StrictlyAscending(Members(n, BitLen(n))) && IsBitSetOf(n, Members(n, BitLen(n)))
  {
    MembersList(n, BitLen(n));
    forall i: nat | Bit(n, i) ensures i < BitLen(n) {
      BitBelowLength(n, i);
    }
  }

  // The claim string.

  function MarshalBigInt(n: nat): string
  {
    Text(n, COMPACT_BASE)
  }

  /** An optional sign, then digits; anything unreadable counts as zero. */
  function UnmarshalBigInt(s: string): int
  {
    if s == "" then 0
    else if s[0] == '-' then
      (var p := Parse(s[1..], COMPACT_BASE); if p.Some? then 0 - p.value as int else 0)
    else
      (var p := Parse(if s[0] == '+' then s[1..] else s, COMPACT_BASE); if p.Some? then p.value else 0)
  }

  datatype IMSClaims = IMSClaims(handle: string, positions: string, admin: bool)

  function WithPersonPositions(c: IMSClaims, ids: seq<nat>): IMSClaims
  {
    c.(positions := MarshalBigInt(BitSetOf(ids)))
  }

  function PersonPositions(c: IMSClaims): Option<seq<nat>>
  {
    var n := UnmarshalBigInt(c.positions);
    if n < 0 then None else Some(Members(n, BitLen(n)))
  }

  lemma UnmarshalMarshal(n: nat)
    ensures UnmarshalBigInt(MarshalBigInt(n)) == n
  {
    ParseText(n, COMPACT_BASE);
    var s := Text(n, COMPACT_BASE);
    LeadingDigit(s);
  }

  lemma {:induction false} LeadingDigit(s: string)
    requires Parse(s, COMPACT_BASE).Some?
    ensures DigitValue(s[0]).Some?
  {
    if |s| > 1 {
      LeadingDigit(s[..|s| - 1]);
    }
  }

  /** Writing positions and reading them back sorts them and drops repetitions, and nothing else. */
  lemma PositionsRoundTrip(c: IMSClaims, ids: seq<nat>)
    ensures var out := PersonPositions(WithPersonPositions(c, ids));
            && out.Some? && StrictlyAscending(out.value)
            && forall i :: i in out.value <==> i in ids
  {
    var n := BitSetOf(ids);
    UnmarshalMarshal(n);
    BitSetOfBits(ids);
    MembersOfNumber(n);
    var out := Members(n, BitLen(n));
    forall i ensures i in out <==> i in ids {
      if i in out || i in ids {
        assert i >= 0;
        assert Bit(n, i) <==> i in ids;
        assert Bit(n, i) <==> i in out;
      }
    }
  }

  /** There is only one strictly ascending list of a given set of ids. */
  lemma {:induction false} AscendingListUnique(s: seq<int>, t: seq<int>)
    requires StrictlyAscending(s) && StrictlyAscending(t)
    requires forall i :: i in s <==> i in t
    ensures s == t
  {
    assert t != [] ==> t[0] in t;
    if s != [] {
      assert s[0] in s;
      assert s[|s| - 1] in t && t[|t| - 1] in s;
      var s', t' := s[..|s| - 1], t[..|t| - 1];
      assert s[|s| - 1] == t[|t| - 1];
      forall i ensures i in s' <==> i in t' {
        assert i in s' <==> i in s && i != s[|s| - 1] by { AscendingInit(s, i); }
        assert i in t' <==> i in t && i != t[|t| - 1] by { AscendingInit(t, i); }
      }
      AscendingListUnique(s', t');
      assert s == s' + [s[|s| - 1]] && t == t' + [t[|t| - 1]];
    }
  }

  lemma AscendingInit(s: seq<int>, i: int)
    requires StrictlyAscending(s) && s != []
    ensures i in s[..|s| - 1] <==> i in s && i != s[|s| - 1]
  {
    assert s == s[..|s| - 1] + [s[|s| - 1]];
  }

  /** A claim string that reads as a bit set is written back unchanged exactly when it is unpadded. */
  lemma ClaimStringRoundTrip(c: IMSClaims)
    requires Parse(c.positions, COMPACT_BASE).Some?
    ensures PersonPositions(c).Some?
    ensures WithPersonPositions(c, PersonPositions(c).value) == c <==> Canonical(c.positions)
  {
    LeadingDigit(c.positions);
    var n := UnmarshalBigInt(c.positions);
    var ids := PersonPositions(c).value;
    MembersOfNumber(n);
    BitSetOfBits(ids);
    BitsDetermineNumber(BitSetOf(ids), n);
    TextParse(c.positions, COMPACT_BASE);
  }

  /** Reading a claim panics exactly on a minus sign followed by a nonzero numeral. */
  lemma PositionsPanicExactly(c: IMSClaims)
    ensures PersonPositions(c).None? <==>
            && |c.positions| > 0 && c.positions[0] == '-'
            && Parse(c.positions[1..], COMPACT_BASE).Some?
            && Parse(c.positions[1..], COMPACT_BASE).value > 0
  {
  }
}
