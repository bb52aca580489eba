/** The batch key generator of backend/internal/service/license_engine.go. */
module KeyGenerator {
  import opened Basics

  const CHARSET: string := "ABCDEFGHJKLMNPQRSTUVWXYZ23456789" // without 0, O, 1 and I

  const DEFAULT_MASK: string := "VOLQ-XXXX-XXXX-XXXX"

  type Index = i: int | 0 <= i < 32

  /** CHARSET[i], and the position of a letter in CHARSET (32 for any other character). */
  function Letter(i: Index): char {
    if i < 8 then (i + 'A' as int) as char
    else if i < 13 then (i - 8 + 'J' as int) as char
    else if i < 24 then (i - 13 + 'P' as int) as char
    else (i - 24 + '2' as int) as char
  }

  function Position(c: char): nat {
    if 'A' <= c <= 'H' then c as int - 'A' as int
    else if 'J' <= c <= 'N' then c as int - 'J' as int + 8
    else if 'P' <= c <= 'Z' then c as int - 'P' as int + 13
    else if '2' <= c <= '9' then c as int - '2' as int + 24
    else 32
  }

  predicate IsLetter(c: char) {
    Position(c) < 32
  }

  lemma LettersAreCharset()
    ensures |CHARSET| == 32
    ensures forall i :: 0 <= i < 32 ==> CHARSET[i] == Letter(i)
    ensures forall c :: IsLetter(c) <==> c in CHARSET
  {
  }

  predicate IsWild(c: char) {
    c == 'X' || c == 'x' || c == '*'
  }

  function EffectiveMask(mask: string): string {
    if mask == "" then DEFAULT_MASK else mask
  }

  /** The operating system's random source: the results of its reads in order, None where a
      read fails. */
  class Reader {
    const tape: nat -> Option<Index>
    var pos: nat

    constructor (tape: nat -> Option<Index>)
      ensures this.tape == tape && pos == 0
    {
      this.tape := tape;
      pos := 0;
    }

    method Int() returns (r: Option<Index>)
      modifies this
      ensures r == tape(old(pos)) && pos == old(pos) + 1
    {
      r := tape(pos);
      pos := pos + 1;
    }
  }

  // ------------------------------------------------------------------
  // One key
  // ------------------------------------------------------------------

  /** Position by position: a charset letter at each wildcard, the mask's own elsewhere. */
  predicate Matches(key: string, mask: string) {
    && |key| == |mask|
    && forall i :: 0 <= i < |mask| ==> if IsWild(mask[i]) then IsLetter(key[i]) else key[i] == mask[i]
  }

  /** The wildcards are x, X and the star, and no mask stands for the default one. */
  lemma MaskExactly(key: string, c: char)
    ensures IsWild(c) <==> c in "Xx*"
    ensures EffectiveMask(key) == key <==> key != ""
    ensures Matches(key, EffectiveMask("")) <==>
            && |key| == 19 && key[..5] == "VOLQ-" && key[9] == '-' && key[14] == '-'
            && forall i :: 5 <= i < 19 && i != 9 && i != 14 ==> key[i] in "ABCDEFGHJKLMNPQRSTUVWXYZ23456789"
  {
    LettersAreCharset();
    var mask := EffectiveMask("");
    assert mask == "VOLQ-XXXX-XXXX-XXXX" && |mask| == 19;
    assert forall i :: 0 <= i < 19 ==> (IsWild(mask[i]) <==> i >= 5 && i != 9 && i != 14);
    if Matches(key, mask) {
      assert key[0] == mask[0] && key[1] == mask[1] && key[2] == mask[2] && key[3] == mask[3] && key[4] == mask[4];
      assert key[..5] == [key[0], key[1], key[2], key[3], key[4]];
    }
    if |key| == 19 && key[..5] == "VOLQ-" {
      assert key[0] == key[..5][0] && key[1] == key[..5][1] && key[2] == key[..5][2];
      assert key[3] == key[..5][3] && key[4] == key[..5][4];
    }
  }

  function Wildcards(mask: string): nat {
    if mask == "" then 0 else Wildcards(mask[..|mask| - 1]) + if IsWild(mask[|mask| - 1]) then 1 else 0
  }

  /** The key that the reads from p on give, or None if one of them fails. */
  function KeyAt(mask: string, tape: nat -> Option<Index>, p: nat): (r: Option<string>)
    ensures r.Some? ==> Matches(r.value, mask)
  {
    if mask == "" then Some("")
    else
      var front, c := mask[..|mask| - 1], mask[|mask| - 1];
      match KeyAt(front, tape, p)
      case None => None
      case Some(key) =>
        if !IsWild(c) then Some(key + [c])
        else
          var i := tape(p + Wildcards(front));
          if i.Some? then Some(key + [Letter(i.value)]) else None
  }

  lemma {:induction false} KeyAtPrefix(mask: string, tape: nat -> Option<Index>, p: nat, n: nat)
    requires n <= |mask| && KeyAt(mask[..n], tape, p) == None
    ensures KeyAt(mask, tape, p) == None
    decreases |mask|
  {
    if n < |mask| {
      var front := mask[..|mask| - 1];
      assert front[..n] == mask[..n];
      KeyAtPrefix(front, tape, p, n);
    } else {
      assert mask[..n] == mask;
    }
  }

  lemma KeyAtNext(mask: string, tape: nat -> Option<Index>, p: nat, i: nat)
    requires i < |mask|
    ensures Wildcards(mask[..i + 1]) == Wildcards(mask[..i]) + if IsWild(mask[i]) then 1 else 0
    ensures KeyAt(mask[..i], tape, p).Some? ==>
              var key, idx := KeyAt(mask[..i], tape, p).value, tape(p + Wildcards(mask[..i]));
              KeyAt(mask[..i + 1], tape, p) == if !IsWild(mask[i]) then Some(key + [mask[i]])
                                               else if idx.Some? then Some(key + [Letter(idx.value)]) else None
  {
    assert mask[..i + 1][..i] == mask[..i];
  }

  method GenerateKeyFromMask(mask: string, reader: Reader) returns (r: Option<string>)
    modifies reader
    ensures r == KeyAt(EffectiveMask(mask), reader.tape, old(reader.pos))
    ensures r.Some? ==> reader.pos == old(reader.pos) + Wildcards(EffectiveMask(mask))
  {
    var m := EffectiveMask(mask);
    var sb := "";
    for i := 0 to |m|
      invariant KeyAt(m[..i], reader.tape, old(reader.pos)) == Some(sb)
      invariant reader.pos == old(reader.pos) + Wildcards(m[..i])
    {
      KeyAtNext(m, reader.tape, old(reader.pos), i);
      if IsWild(m[i]) {
        var idx := reader.Int();
        if idx.None? {
          KeyAtPrefix(m, reader.tape, old(reader.pos), i + 1);
          return None;
        }
        sb := sb + [Letter(idx.value)];
      } else {
        sb := sb + [m[i]];
      }
    }
    assert m[..|m|] == m;
    return Some(sb);
  }

  // ------------------------------------------------------------------
  // A batch
  // ------------------------------------------------------------------

  predicate Distinct(keys: seq<string>) {
    forall i, j :: 0 <= i < j < |keys| ==> keys[i] != keys[j]
  }

  /** The n-th key drawn, when the earlier draws succeed. */
  function Draw(mask: string, tape: nat -> Option<Index>, base: nat, n: nat): Option<string> {
    KeyAt(mask, tape, base + n * Wildcards(mask))
  }

  /** The distinct keys among the first n draws. */
  function Collected(mask: string, tape: nat -> Option<Index>, base: nat, n: nat): (keys: seq<string>)
    ensures Distinct(keys) && forall k :: k in keys ==> Matches(k, mask)
  {
    if n == 0 then []
    else
      var keys, k := Collected(mask, tape, base, n - 1), Draw(mask, tape, base, n - 1);
      if k.None? || k.value in keys then keys else keys + [k.value]
  }

  lemma CollectedNext(mask: string, tape: nat -> Option<Index>, base: nat, n: nat)
    ensures var keys, k := Collected(mask, tape, base, n), Draw(mask, tape, base, n);
            Collected(mask, tape, base, n + 1) == if k.None? || k.value in keys then keys else keys + [k.value]
  {
  }

  /** After n draws the loop is over: the batch is full, or the next draw fails. */
  ghost predicate Over(mask: string, tape: nat -> Option<Index>, base: nat, count: nat, n: nat) {
    |Collected(mask, tape, base, n)| >= count || Draw(mask, tape, base, n).None?
  }

  ghost predicate Halts(mask: string, tape: nat -> Option<Index>, base: nat, count: nat) {
    exists n: nat :: Over(mask, tape, base, count, n)
  }

  datatype BatchError = BadCount | RandomSourceFailed

  /** The precondition is termination itself; TerminatesExactly says when it holds. */
  method GenerateBatch(mask: string, count: int, reader: Reader) returns (r: Result<seq<string>, BatchError>)
    requires 0 < count <= 10_000 ==> Halts(EffectiveMask(mask), reader.tape, reader.pos, count)
    modifies reader
    ensures r == Err(BadCount) <==> !(0 < count <= 10_000)
    ensures r == Err(RandomSourceFailed) ==>
              exists n: nat :: Draw(EffectiveMask(mask), reader.tape, old(reader.pos), n) == None
    ensures r.Ok? ==> |r.value| == count && Distinct(r.value)
    ensures r.Ok? ==> forall k :: k in r.value ==> Matches(k, EffectiveMask(mask))
    ensures r.Ok? ==> exists n: nat :: r.value == Collected(EffectiveMask(mask), reader.tape, old(reader.pos), n)
  {
    if count <= 0 || count > 10_000 {
      return Err(BadCount);
    }
    ghost var m, base := EffectiveMask(mask), reader.pos;
    ghost var last: nat :| Over(m, reader.tape, base, count, last);
    var keys: seq<string> := [];
    var seen: set<string> := {};
    ghost var n: nat := 0;
    while |keys| < count
      invariant n <= last && |keys| <= count
      invariant reader.pos == base + n * Wildcards(m)
      invariant keys == Collected(m, reader.tape, base, n)
      invariant seen == set k | k in keys
      decreases last - n
    {
      var key := GenerateKeyFromMask(mask, reader);
      MulDistributes(n, 1, Wildcards(m));
      CollectedNext(m, reader.tape, base, n);
      assert key == Draw(m, reader.tape, base, n);
      if key.None? {
        return Err(RandomSourceFailed);
      }
      if key.value !in seen {
        seen := seen + {key.value};
        keys := keys + [key.value];
      }
      n := n + 1;
    }
    return Ok(keys);
  }

  // ------------------------------------------------------------------
  // Counting
  // ------------------------------------------------------------------

  function Pow32(n: nat): nat {
    if n == 0 then 1 else 32 * Pow32(n - 1)
  }

  /** The wildcards' letters read as the digits of a number to base 32. */
  function Rank(key: string, mask: string): nat
    requires Matches(key, mask)
  {
    if mask == "" then 0
    else
      var n := |mask| - 1;
      var front := Rank(key[..n], mask[..n]);
      if IsWild(mask[n]) then 32 * front + Position(key[n]) else front
  }

  lemma {:induction false} RankBelow(key: string, mask: string)
    requires Matches(key, mask)
    ensures Rank(key, mask) < Pow32(Wildcards(mask))
  {
    if mask != "" {
      RankBelow(key[..|mask| - 1], mask[..|mask| - 1]);
    }
  }

  lemma PositionInjective(c: char, d: char)
    requires IsLetter(c) && Position(c) == Position(d)
    ensures c == d
  {
  }

  lemma MatchesLast(key: string, mask: string)
    requires Matches(key, mask) && mask != ""
    ensures var n := |mask| - 1;
            && Matches(key[..n], mask[..n]) && key == key[..n] + [key[n]]
            && if IsWild(mask[n]) then IsLetter(key[n]) else key[n] == mask[n]
  {
  }

  lemma DigitsInjective(a: nat, c: char, b: nat, d: char)
    requires IsLetter(c) && IsLetter(d) && 32 * a + Position(c) == 32 * b + Position(d)
    ensures a == b && c == d
  {
    assert Position(c) == Position(d);
    PositionInjective(c, d);
  }

  lemma {:induction false} RankInjective(key: string, other: string, mask: string)
    requires Matches(key, mask) && Matches(other, mask) && Rank(key, mask) == Rank(other, mask)
    ensures key == other
  {
    if mask != "" {
      var n := |mask| - 1;
      MatchesLast(key, mask);
      MatchesLast(other, mask);
      if IsWild(mask[n]) {
        DigitsInjective(Rank(key[..n], mask[..n]), key[n], Rank(other[..n], mask[..n]), other[n]);
      }
      RankInjective(key[..n], other[..n], mask[..n]);
    }
  }

  lemma {:induction false} RankOnto(mask: string, rank: nat) returns (key: string)
    requires rank < Pow32(Wildcards(mask))
    ensures Matches(key, mask) && Rank(key, mask) == rank
  {
    if mask == "" {
      return "";
    }
    var n := |mask| - 1;
    var wild := IsWild(mask[n]);
    var front := RankOnto(mask[..n], if wild then rank / 32 else rank);
    var letter := if wild then Letter(rank % 32) else mask[n];
    key := front + [letter];
    assert key[..n] == front && key[n] == letter;
  }

  ghost function Below(n: nat): (r: set<nat>)
    ensures forall x: nat :: x in r <==> x < n
    ensures |r| == n
  {
    if n == 0 then {} else Below(n - 1) + {n - 1}
  }

  function Elements<T>(xs: seq<T>): set<T> {
    set x | x in xs
  }

  lemma {:induction false} DistinctCount<T>(xs: seq<T>)
    requires forall i, j :: 0 <= i < j < |xs| ==> xs[i] != xs[j]
    ensures |Elements(xs)| == |xs|
  {
    if xs == [] {
      assert Elements(xs) == {};
    } else {
      DistinctCount(xs[1..]);
      assert Elements(xs) == {xs[0]} + Elements(xs[1..]);
    }
  }

  lemma SubsetSize<T>(a: set<T>, b: set<T>)
    requires a <= b
    ensures |a| <= |b|
  {
    assert b == a + (b - a);
  }

  ghost predicate Missing(k: string, keys: seq<string>, mask: string) {
    Matches(k, mask) && k !in keys
  }

  lemma DistinctBelow(xs: seq<nat>, n: nat)
    requires forall i, j :: 0 <= i < j < |xs| ==> xs[i] != xs[j]
    requires forall x :: x in xs ==> x < n
    ensures |xs| <= n
    ensures |xs| < n ==> exists r: nat :: r < n && r !in xs
  {
    DistinctCount(xs);
    SubsetSize(Elements(xs), Below(n));
    if |xs| < n {
      if Below(n) <= Elements(xs) {
        SubsetSize(Below(n), Elements(xs));
      }
      var r :| r in Below(n) && r !in Elements(xs);
    }
  }

  lemma RanksBelow(keys: seq<string>, mask: string) returns (ranks: seq<nat>)
    requires Distinct(keys) && forall k :: k in keys ==> Matches(k, mask)
    ensures |ranks| == |keys| <= Pow32(Wildcards(mask))
    ensures forall i :: 0 <= i < |keys| ==> ranks[i] == Rank(keys[i], mask)
    ensures |keys| < Pow32(Wildcards(mask)) ==> exists r: nat :: r < Pow32(Wildcards(mask)) && r !in ranks
  {
    ranks := seq(|keys|, i requires 0 <= i < |keys| => Rank(keys[i], mask));
    forall i | 0 <= i < |ranks| ensures ranks[i] < Pow32(Wildcards(mask)) {
      RankBelow(keys[i], mask);
    }
    forall i, j | 0 <= i < j < |ranks| ensures ranks[i] != ranks[j] {
      if ranks[i] == ranks[j] {
        RankInjective(keys[i], keys[j], mask);
      }
    }
    DistinctBelow(ranks, Pow32(Wildcards(mask)));
  }

  /** A mask has 32^wildcards keys: no batch is larger, and one is missing from every smaller. */
  lemma Pigeonhole(keys: seq<string>, mask: string)
    requires Distinct(keys) && forall k :: k in keys ==> Matches(k, mask)
    ensures |keys| <= Pow32(Wildcards(mask))
    ensures |keys| < Pow32(Wildcards(mask)) <==> exists k :: Missing(k, keys, mask)
  {
    var ranks := RanksBelow(keys, mask);
    if |keys| < Pow32(Wildcards(mask)) {
      var r: nat :| r < Pow32(Wildcards(mask)) && r !in ranks;
      var k := RankOnto(mask, r);
      forall i | 0 <= i < |keys| ensures keys[i] != k {
        assert ranks[i] in ranks;
      }
      assert Missing(k, keys, mask);
    } else if exists k :: Missing(k, keys, mask) {
      var k :| Missing(k, keys, mask);
      var _ := RanksBelow(keys + [k], mask);
    }
  }

  // ------------------------------------------------------------------
  // Termination
  // ------------------------------------------------------------------

  ghost predicate DrawsNew(mask: string, tape: nat -> Option<Index>, base: nat, n: nat, m: nat) {
    && m >= n && Draw(mask, tape, base, m).Some?
    && Draw(mask, tape, base, m).value !in Collected(mask, tape, base, n)
  }

  /** The source always eventually yields an unseen key while one exists. */
  ghost predicate Fair(mask: string, tape: nat -> Option<Index>, base: nat) {
    forall n: nat :: (exists k :: Missing(k, Collected(mask, tape, base, n), mask)) ==>
                       exists m: nat :: DrawsNew(mask, tape, base, n, m)
  }

  lemma {:induction false} CollectedGrows(mask: string, tape: nat -> Option<Index>, base: nat, n: nat, m: nat)
    requires n <= m
    ensures Collected(mask, tape, base, n) <= Collected(mask, tape, base, m)
    decreases m
  {
    if n < m {
      CollectedGrows(mask, tape, base, n, m - 1);
    }
  }

  lemma OneMoreKey(mask: string, tape: nat -> Option<Index>, base: nat, n: nat) returns (m: nat)
    requires Fair(mask, tape, base) && |Collected(mask, tape, base, n)| < Pow32(Wildcards(mask))
    ensures |Collected(mask, tape, base, m)| > |Collected(mask, tape, base, n)|
  {
    Pigeonhole(Collected(mask, tape, base, n), mask);
    m :| DrawsNew(mask, tape, base, n, m);
    CollectedGrows(mask, tape, base, n, m);
    m := m + 1;
  }

  lemma {:induction false} FairCollects(mask: string, tape: nat -> Option<Index>, base: nat, c: nat) returns (n: nat)
    requires Fair(mask, tape, base) && c <= Pow32(Wildcards(mask))
    ensures |Collected(mask, tape, base, n)| >= c
  {
    if c == 0 {
      return 0;
    }
    n := FairCollects(mask, tape, base, c - 1);
    if |Collected(mask, tape, base, n)| < c {
      n := OneMoreKey(mask, tape, base, n);
    }
  }

  ghost predicate Collects(mask: string, tape: nat -> Option<Index>, base: nat, c: nat) {
    exists n: nat :: |Collected(mask, tape, base, n)| >= c
  }

  // The draw by which the collection has grown.
  lemma {:induction false} GrowthDrawsNew(mask: string, tape: nat -> Option<Index>, base: nat, n: nat, l: nat)
    returns (m: nat)
    requires n <= l && |Collected(mask, tape, base, n)| < |Collected(mask, tape, base, l)|
    ensures DrawsNew(mask, tape, base, n, m)
    decreases l
  {
    var before := Collected(mask, tape, base, l - 1);
    CollectedGrows(mask, tape, base, n, l - 1);
    if |Collected(mask, tape, base, n)| < |before| {
      m := GrowthDrawsNew(mask, tape, base, n, l - 1);
    } else {
      m := l - 1;
    }
  }

  /** No weaker hypothesis would do: a source is fair exactly when it lets the loop collect every
      number of keys that the mask has. */
  lemma FairExactly(mask: string, tape: nat -> Option<Index>, base: nat)
    ensures Fair(mask, tape, base) <==> forall c: nat :: c <= Pow32(Wildcards(mask)) ==> Collects(mask, tape, base, c)
  {
    if Fair(mask, tape, base) {
      forall c: nat | c <= Pow32(Wildcards(mask)) ensures Collects(mask, tape, base, c) {
        var n := FairCollects(mask, tape, base, c);
      }
    } else {
      var n: nat :| (exists k :: Missing(k, Collected(mask, tape, base, n), mask))
                    && !exists m: nat :: DrawsNew(mask, tape, base, n, m);
      Pigeonhole(Collected(mask, tape, base, n), mask);
      if Collects(mask, tape, base, Pow32(Wildcards(mask))) {
        var l: nat :| |Collected(mask, tape, base, l)| >= Pow32(Wildcards(mask));
        if l < n {
          CollectedGrows(mask, tape, base, l, n);
        }
        var m := GrowthDrawsNew(mask, tape, base, n, l);
      }
    }
  }

  /** From a fair source the loop ends exactly when the mask has as many keys as are asked for,
      or a read fails on the way. */
  lemma TerminatesExactly(mask: string, tape: nat -> Option<Index>, base: nat, count: nat)
    requires Fair(mask, tape, base)
    ensures Halts(mask, tape, base, count)
            <==> count <= Pow32(Wildcards(mask)) || exists n: nat :: Draw(mask, tape, base, n).None?
  {
    if count <= Pow32(Wildcards(mask)) {
      var n := FairCollects(mask, tape, base, count);
      assert Over(mask, tape, base, count, n);
    } else if n: nat :| Draw(mask, tape, base, n).None? {
      assert Over(mask, tape, base, count, n);
    } else {
      TooManyNeverEnds(mask, tape, base, count);
    }
  }

  /** A mask with too few keys keeps every source whose reads never fail drawing for ever. */
  lemma TooManyNeverEnds(mask: string, tape: nat -> Option<Index>, base: nat, count: nat)
    requires forall n: nat :: Draw(mask, tape, base, n).Some?
    requires count > Pow32(Wildcards(mask))
    ensures !Halts(mask, tape, base, count)
  {
    forall n: nat ensures !Over(mask, tape, base, count, n) {
      Pigeonhole(Collected(mask, tape, base, n), mask);
    }
  }
}
