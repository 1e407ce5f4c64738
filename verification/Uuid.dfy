/** The version 7 generator of fino:uuid (sections 5.7 and 6.2 of RFC 9562) and the text form of a UUID. */
module Uuid {
  import opened Bytes

  const LIMIT := 281474976710656

  // ----- big-endian numbers -----

  function Num(s: seq<Byte>): nat {
    if s == [] then 0 else 256 * Num(s[..|s| - 1]) + s[|s| - 1]
  }

  /** The last `k` base-256 digits of `n`, most significant first. */
  function Digits(n: nat, k: nat): (s: seq<Byte>)
    ensures |s| == k
  {
    if k == 0 then [] else Digits(n / 256, k - 1) + [n % 256]
  }

  /** Byte order: the first difference decides. */
  ghost predicate Below(s: seq<Byte>, t: seq<Byte>) {
    exists i :: 0 <= i < |s| && i < |t| && s[i] < t[i] && forall j :: 0 <= j < i ==> s[j] == t[j]
  }

  lemma {:induction false} NumOrder(s: seq<Byte>, t: seq<Byte>)
    requires |s| == |t|
    ensures Num(s) < Num(t) ==> Below(s, t)
    ensures Num(s) == Num(t) ==> s == t
  {
    if s != [] {
      var n := |s| - 1;
      var s', t' := s[..n], t[..n];
      NumOrder(s', t');
      assert s == s' + [s[n]] && t == t' + [t[n]];
      if Num(s') < Num(t') {
        BelowExtends(s, t, n);
      }
    }
  }

  lemma BelowExtends(s: seq<Byte>, t: seq<Byte>, n: nat)
    requires n <= |s| && n <= |t| && Below(s[..n], t[..n])
    ensures Below(s, t)
  {
    var i :| 0 <= i < n && s[..n][i] < t[..n][i] && forall j :: 0 <= j < i ==> s[..n][j] == t[..n][j];
    assert s[i] < t[i] && forall j :: 0 <= j < i ==> s[j] == s[..n][j] && t[j] == t[..n][j];
  }

  lemma BelowIsOneWay(s: seq<Byte>, t: seq<Byte>)
    requires Below(s, t)
    ensures !Below(t, s)
  {
  }

  // ----- version 7 values -----

  /** A value made at logical millisecond `ms` with the given counter. */
  ghost predicate IsV7(b: seq<Byte>, ms: nat, counter: nat) {
    && |b| == 16 && b[..6] == Digits(ms, 6)
    && b[6] == 112 + counter / 256 && b[7] == counter % 256 && 128 <= b[8] < 192
  }

  function Version(b: seq<Byte>): nat
    requires |b| == 16
  {
    b[6] / 16
  }

  function Variant(b: seq<Byte>): nat
    requires |b| == 16
  {
    if b[8] < 128 then 0 else if b[8] < 192 then 1 else if b[8] < 224 then 2 else 3
  }

  /** `timestamp` of a version 7 value. */
  function Timestamp(b: seq<Byte>): nat
    requires |b| == 16
  {
    b[0] as int * 1099511627776 + b[1] as int * 4294967296 + b[2] as int * 16777216 + b[3] as int * 65536
      + b[4] as int * 256 + b[5] as int
  }

  lemma SixDigits(ms: nat)
    ensures Digits(ms, 6)
         == [ms / 1099511627776 % 256, ms / 4294967296 % 256, ms / 16777216 % 256, ms / 65536 % 256, ms / 256 % 256,
             ms % 256]
  {
    var a := ms / 256;
    var b := ms / 65536;
    var c := ms / 16777216;
    var d := ms / 4294967296;
    var e := ms / 1099511627776;
    assert a / 256 == b && b / 256 == c && c / 256 == d && d / 256 == e;
    assert Digits(e, 1) == [e % 256];
    assert Digits(d, 2) == [e % 256, d % 256];
    assert Digits(c, 3) == [e % 256, d % 256, c % 256];
    assert Digits(b, 4) == [e % 256, d % 256, c % 256, b % 256];
    assert Digits(a, 5) == [e % 256, d % 256, c % 256, b % 256, a % 256];
  }

  lemma DigitsAddUp(ms: nat)
    ensures ms / 1099511627776 % 256 * 1099511627776 + ms / 4294967296 % 256 * 4294967296
        + ms / 16777216 % 256 * 16777216
              + ms / 65536 % 256 * 65536 + ms / 256 % 256 * 256 + ms % 256
         == ms % LIMIT
  {
    var a, b, c, d, e, f := ms / 256, ms / 65536, ms / 16777216, ms / 4294967296, ms / 1099511627776, ms / LIMIT;
    assert a / 256 == b && b / 256 == c && c / 256 == d && d / 256 == e && e / 256 == f;
    AddUp(ms, a, b, c, d, e, f);
  }

  lemma AddUp(n: nat, a: nat, b: nat, c: nat, d: nat, e: nat, f: nat)
    requires a == n / 256 && b == a / 256 && c == b / 256 && d == c / 256 && e == d / 256 && f == e / 256
    ensures e % 256 * 1099511627776 + d % 256 * 4294967296 + c % 256 * 16777216 + b % 256 * 65536 + a % 256 * 256
        + n % 256
         == n - LIMIT * f
  {
    assert d == 256 * e + d % 256 && e == 256 * f + e % 256;
    assert d == 65536 * f + 256 * (e % 256) + d % 256;
    assert b == 65536 * d + 256 * (c % 256) + b % 256;
    assert n == 65536 * b + 256 * (a % 256) + n % 256;
  }

  /** The time stamp of a value is the logical millisecond it was made at, up to 48 bits. */
  lemma TimestampIsMillisecond(b: seq<Byte>, ms: nat, counter: nat)
    requires IsV7(b, ms, counter) && counter < 4096
    ensures Timestamp(b) == ms % LIMIT && Version(b) == 7 && Variant(b) == 1
  {
    SixDigits(ms);
    DigitsAddUp(ms);
    var s := Digits(ms, 6);
    assert b[0] == s[0] && b[1] == s[1] && b[2] == s[2] && b[3] == s[3] && b[4] == s[4] && b[5] == s[5];
  }

  lemma TimestampIsNum(b: seq<Byte>)
    requires |b| == 16
    ensures Timestamp(b) == Num(b[..6])
  {
    var s := b[..6];
    assert s[..1][..0] == [] && s[..2][..1] == s[..1] && s[..3][..2] == s[..2] && s[..4][..3] == s[..3]
        && s[..5][..4] == s[..4];
    assert Num(s[..1]) == b[0];
    assert Num(s[..2]) == 256 * Num(s[..1]) + b[1];
    assert Num(s[..3]) == 256 * Num(s[..2]) + b[2];
    assert Num(s[..4]) == 256 * Num(s[..3]) + b[3];
    assert Num(s[..5]) == 256 * Num(s[..4]) + b[4];
  }

  /** What orders two values: the 48-bit time stamp, then the counter. */
  function Rank(ms: nat, counter: nat): nat { ms % LIMIT * 4096 + counter }

  lemma NumOfEight(b: seq<Byte>, ms: nat, counter: nat)
    requires IsV7(b, ms, counter) && counter < 4096
    ensures |b| == 16 && Num(b[..8]) == ms % LIMIT * 65536 + 28672 + counter
  {
    hide Digits;
    TimestampIsMillisecond(b, ms, counter);
    TimestampIsNum(b);
    assert b[..8][..7] == b[..7] && b[..7][..6] == b[..6];
    assert Num(b[..7]) == 256 * Num(b[..6]) + b[6];
  }

  /** Two values of different rank are ordered as their ranks are. */
  lemma OrderIsByRank(a: seq<Byte>, ms: nat, counter: nat, b: seq<Byte>, ms': nat, counter': nat)
    requires IsV7(a, ms, counter) && IsV7(b, ms', counter') && counter < 4096 && counter' < 4096
    requires Rank(ms, counter) != Rank(ms', counter')
    ensures Below(a, b) <==> Rank(ms, counter) < Rank(ms', counter')
  {
    hide IsV7, Below;
    NumOfEight(a, ms, counter);
    NumOfEight(b, ms', counter');
    if Rank(ms, counter) < Rank(ms', counter') {
      RankIsNum(ms % LIMIT, counter, ms' % LIMIT, counter');
      NumOrder(a[..8], b[..8]);
      BelowExtends(a, b, 8);
    } else {
      RankIsNum(ms' % LIMIT, counter', ms % LIMIT, counter);
      NumOrder(b[..8], a[..8]);
      BelowExtends(b, a, 8);
      BelowIsOneWay(b, a);
    }
  }

  lemma RankIsNum(t: nat, c: nat, t': nat, c': nat)
    requires c < 4096 && c' < 4096 && t * 4096 + c < t' * 4096 + c'
    ensures t * 65536 + 28672 + c < t' * 65536 + 28672 + c'
  {
  }

  // ----- the generator -----

  /** One call: what it returned, and the logical millisecond and counter it used. */
  datatype Issue = Issue(bytes: seq<Byte>, ms: nat, counter: nat)

  ghost predicate Issued(log: seq<Issue>) {
    && (forall i :: 0 <= i < |log| ==> log[i].counter < 4096 && IsV7(log[i].bytes, log[i].ms, log[i].counter))
    && (forall i, j :: 0 <= i < j < |log| ==> Before(log[i], log[j]))
  }

  ghost predicate Before(a: Issue, b: Issue) { a.ms < b.ms || (a.ms == b.ms && a.counter < b.counter) }

  /** As long as the time stamps fit, values are strictly increasing over a whole run. */
  lemma RunIsIncreasing(log: seq<Issue>, i: nat, j: nat)
    requires Issued(log) && i < j < |log| && log[j].ms < LIMIT
    ensures Below(log[i].bytes, log[j].bytes)
  {
    hide IsV7, Below;
    var a, b := log[i], log[j];
    assert Before(a, b);
    OrderIsByRank(a.bytes, a.ms, a.counter, b.bytes, b.ms, b.counter);
  }

  /** When the 48 bits run out, the next value is not above the last. */
  lemma TimestampWraps(a: seq<Byte>, b: seq<Byte>)
    requires IsV7(a, LIMIT - 1, 4095) && IsV7(b, LIMIT, 0)
    ensures Below(b, a)
  {
    hide IsV7, Below;
    OrderIsByRank(b, LIMIT, 0, a, LIMIT - 1, 4095);
  }

  class Generator {
    var lastMs: int
    var counter: nat
    var counterRand: Byte
    ghost var log: seq<Issue>
    ghost var clock: nat

    /** `clock` is the largest reading seen; the logical time leads it by at most one per 4096 calls. */
    ghost predicate Valid()
      reads this
    {
      && counter < 4096 && Issued(log)
      && (log == [] ==> lastMs == -1)
      && (log != [] ==>
            && log[|log| - 1].ms == lastMs && log[|log| - 1].counter == counter
            && clock <= lastMs && 4096 * (lastMs - clock) + counter <= |log| - 1)
    }

    constructor ()
      ensures Valid() && log == []
    {
      lastMs, counter, counterRand, log, clock := -1, 0, 0, [], 0;
    }

    /** `UUID.v7`, with the clock reading and the random bytes it drew. */
    method V7(now: nat, random: seq<Byte>, more: seq<Byte>) returns (b: seq<Byte>)
      requires Valid() && |random| == 16 && |more| == 2
      modifies this
      ensures Valid() && |log| == |old(log)| + 1 && log[..|log| - 1] == old(log)
      ensures log[|log| - 1].bytes == b && clock == if now > old(clock) || old(log) == [] then now else old(clock)
      ensures clock <= log[|log| - 1].ms <= clock + (|log| - 1) / 4096
      ensures b[9..] == random[9..]
    {
      hide IsV7, Issued;
      var ms: int := now;
      if ms > lastMs {
        lastMs, counter, counterRand := ms, 0, random[7];
      } else {
        ms := lastMs;
        counter := counter + 1;
        if counter > 4095 {
          lastMs := lastMs + 1;
          ms := lastMs;
          counter := 0;
          counterRand := more[0];
        }
      }
      b := Fill(ms, counter, counterRand, random);
      Extends(log, Issue(b, ms, counter));
      clock := if now > clock || log == [] then now else clock;
      log := log + [Issue(b, ms, counter)];
    }
  }

  /** The byte layout. */
  method Fill(ms: nat, counter: nat, rand: Byte, random: seq<Byte>) returns (r: seq<Byte>)
    requires |random| == 16 && counter < 4096
    ensures IsV7(r, ms, counter) && r[9..] == random[9..]
  {
    hide Digits, IsV7;
    var b := new Byte[16](i requires 0 <= i < 16 => random[i]);
    b[0] := ms / 1099511627776 % 256;
    b[1] := ms / 4294967296 % 256;
    b[2] := ms / 16777216 % 256;
    b[3] := ms / 65536 % 256;
    b[4] := ms / 256 % 256;
    b[5] := ms % 256;
    b[6] := 112 + counter / 256 % 16;
    b[7] := counter % 256;
    b[8] := rand % 64 + 128;
    r := b[..];
    SixDigits(ms);
    Layout(r, random, ms, counter, rand);
  }

  lemma Layout(r: seq<Byte>, random: seq<Byte>, ms: nat, counter: nat, rand: Byte)
    requires |r| == |random| == 16 && counter < 4096
    requires [r[0], r[1], r[2], r[3], r[4], r[5]] == Digits(ms, 6)
    requires r[6] == 112 + counter / 256 % 16 && r[7] == counter % 256 && r[8] == rand % 64 + 128
    requires forall k :: 9 <= k < 16 ==> r[k] == random[k]
    ensures IsV7(r, ms, counter) && r[9..] == random[9..]
  {
    hide Digits;
    assert r[..6] == [r[0], r[1], r[2], r[3], r[4], r[5]];
  }

  lemma Extends(log: seq<Issue>, e: Issue)
    requires Issued(log) && e.counter < 4096 && IsV7(e.bytes, e.ms, e.counter)
    requires log != [] ==> Before(log[|log| - 1], e)
    ensures Issued(log + [e])
  {
    hide IsV7;
    var all := log + [e];
    forall i | 0 <= i < |log| ensures Before(log[i], e) {
      assert i < |log| - 1 ==> Before(log[i], log[|log| - 1]);
    }
  }
}
