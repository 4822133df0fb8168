/**
 * Stateless correlation of SYN/ACKs: a keyed cookie of the destination and a coarse timestamp share
 * the 32-bit sequence number. Words are bit-vectors, so wrap-around is that of the machine; times
 * are milliseconds since the start of the scan.
 */
module Cookie {
  type Millis = nat

  const SPAN_MS: Millis := 1024

  // ----- the mix

  function Seed(ip: bv32, port: bv16, secret: bv32): bv64 {
    ((ip as bv64) << 32) ^ ((port as bv64) << 16) ^ (secret as bv64)
  }

  function Shifted30(x: bv64): bv64 {
    x ^ (x >> 30)
  }

  function Shifted27(x: bv64): bv64 {
    x ^ (x >> 27)
  }

  function Shifted31(x: bv64): bv64 {
    x ^ (x >> 31)
  }

  function Times1(x: bv64): bv64 {
    x * 0xBF58_476D_1CE4_E5B9
  }

  function Times2(x: bv64): bv64 {
    x * 0x94D0_49BB_1331_11EB
  }

  function Mix(seed: bv64): bv64 {
    Shifted31(Times2(Shifted27(Times1(Shifted30(seed + 0x9E37_79B9_7F4A_7C15)))))
  }

  // The steps undone. The factors are the inverses modulo 2^64 of the odd ones above.

  function Unshifted30(x: bv64): bv64 {
    x ^ (x >> 30) ^ (x >> 60)
  }

  function Unshifted27(x: bv64): bv64 {
    x ^ (x >> 27) ^ (x >> 54)
  }

  function Unshifted31(x: bv64): bv64 {
    x ^ (x >> 31) ^ (x >> 62)
  }

  function Over1(x: bv64): bv64 {
    x * 0x96DE_1B17_3F11_9089
  }

  function Over2(x: bv64): bv64 {
    x * 0x3196_42B2_D24D_8EC3
  }

  function Unmix(mixed: bv64): bv64 {
    Unshifted30(Over1(Unshifted27(Over2(Unshifted31(mixed))))) - 0x9E37_79B9_7F4A_7C15
  }

  function Cookie(ip: bv32, port: bv16, secret: bv32): bv32 {
    Truncated(Mix(Seed(ip, port, secret)))
  }

  /** The top 24 bits. */
  function Truncated(m: bv64): bv32 {
    (m >> 40) as bv32
  }

  /** The bits that truncation drops. */
  function Dropped(m: bv64): bv64 {
    m & 0xFF_FFFF_FFFF
  }

  lemma Undo30(x: bv64)
    ensures Unshifted30(Shifted30(x)) == x
  {
    hide Unshifted30;
    assert Shifted30(x) == x ^ (x >> 30);
    hide Shifted30;
    Unfolded30(x);
  }

  lemma Unfolded30(x: bv64)
    ensures Unshifted30(x ^ (x >> 30)) == x
  {}

  lemma Undo27(x: bv64)
    ensures Unshifted27(Shifted27(x)) == x
  {
    hide Unshifted27;
    assert Shifted27(x) == x ^ (x >> 27);
    hide Shifted27;
    Unfolded27(x);
  }

  lemma Unfolded27(x: bv64)
    ensures Unshifted27(x ^ (x >> 27)) == x
  {}

  lemma Undo31(x: bv64)
    ensures Unshifted31(Shifted31(x)) == x
  {
    hide Unshifted31;
    assert Shifted31(x) == x ^ (x >> 31);
    hide Shifted31;
    Unfolded31(x);
  }

  lemma Unfolded31(x: bv64)
    ensures Unshifted31(x ^ (x >> 31)) == x
  {}

  lemma UndoFactor1(x: bv64)
    ensures Over1(Times1(x)) == x
  {
    hide Over1;
    assert Times1(x) == x * 0xBF58_476D_1CE4_E5B9;
    hide Times1;
    UnfoldedFactor1(x);
  }

  lemma UnfoldedFactor1(x: bv64)
    ensures Over1(x * 0xBF58_476D_1CE4_E5B9) == x
  {}

  lemma UndoFactor2(x: bv64)
    ensures Over2(Times2(x)) == x
  {
    hide Over2;
    assert Times2(x) == x * 0x94D0_49BB_1331_11EB;
    hide Times2;
    UnfoldedFactor2(x);
  }

  lemma UnfoldedFactor2(x: bv64)
    ensures Over2(x * 0x94D0_49BB_1331_11EB) == x
  {}

  /** No input of the mix is lost before truncation. */
  lemma UnmixMixes(seed: bv64)
    ensures Unmix(Mix(seed)) == seed
  {
    hide Shifted30, Shifted27, Shifted31, Times1, Times2, Unshifted30, Unshifted27, Unshifted31, Over1, Over2;
    var x := seed + 0x9E37_79B9_7F4A_7C15;
    var y := Times1(Shifted30(x));
    var z := Times2(Shifted27(y));
    Undo31(z);
    UndoFactor2(Shifted27(y));
    Undo27(y);
    UndoFactor1(Shifted30(x));
    Undo30(x);
  }

  lemma SeedInjective(ip: bv32, port: bv16, otherIp: bv32, otherPort: bv16, secret: bv32)
    requires Seed(ip, port, secret) == Seed(otherIp, otherPort, secret)
    ensures ip == otherIp && port == otherPort
  {}

  /** For one secret, destinations that differ are mixed to different words. */
  lemma MixInjective(ip: bv32, port: bv16, otherIp: bv32, otherPort: bv16, secret: bv32)
    requires Mix(Seed(ip, port, secret)) == Mix(Seed(otherIp, otherPort, secret))
    ensures ip == otherIp && port == otherPort
  {
    UnmixMixes(Seed(ip, port, secret));
    UnmixMixes(Seed(otherIp, otherPort, secret));
    SeedInjective(ip, port, otherIp, otherPort, secret);
  }

  lemma SecretsDiffer(ip: bv32, port: bv16, secret: bv32, other: bv32)
    requires Seed(ip, port, secret) == Seed(ip, port, other)
    ensures secret == other
  {}

  /** For one destination, secrets that differ give different words. */
  lemma SecretMatters(ip: bv32, port: bv16, secret: bv32, other: bv32)
    requires Mix(Seed(ip, port, secret)) == Mix(Seed(ip, port, other))
    ensures secret == other
  {
    hide Mix, Unmix, Seed;
    UnmixMixes(Seed(ip, port, secret));
    UnmixMixes(Seed(ip, port, other));
    SecretsDiffer(ip, port, secret, other);
  }

  /** The mix is SplitMix64: from state zero it gives that generator's first output. */
  lemma MixVector()
    ensures Mix(0) == 0xE220_A839_7B1D_CDAF
  {}

  /** Two destinations share a cookie only where their mixes differ in the 40 bits that are dropped. */
  lemma CollisionsComeFromTruncation(ip: bv32, port: bv16, otherIp: bv32, otherPort: bv16, secret: bv32)
    requires (ip, port) != (otherIp, otherPort)
    ensures var a, b := Mix(Seed(ip, port, secret)), Mix(Seed(otherIp, otherPort, secret));
            Cookie(ip, port, secret) == Cookie(otherIp, otherPort, secret) ==> Dropped(a) != Dropped(b)
  {
    hide Mix, Seed, Truncated, Dropped;
    var a, b := Mix(Seed(ip, port, secret)), Mix(Seed(otherIp, otherPort, secret));
    if a == b {
      MixInjective(ip, port, otherIp, otherPort, secret);
    } else {
      TwoParts(a, b);
    }
  }

  lemma TwoParts(a: bv64, b: bv64)
    ensures Truncated(a) == Truncated(b) && Dropped(a) == Dropped(b) ==> a == b
  {}

  // ----- sequence numbers

  /** Elapsed time in ticks of 4 ms, modulo 256. */
  function Tick(elapsed: Millis): bv8 {
    ToByte((elapsed / 4) % 256)
  }

  /** A number below 256 as a byte. */
  function ToByte(n: nat): (b: bv8)
    requires n < 256
    ensures b as int == n
  {
    if n == 0 then 0
    else
      var b := ToByte(n - 1);
      Successor(b);
      b + 1
  }

  lemma Successor(b: bv8)
    requires b != 255
    ensures (b + 1) as int == b as int + 1
  {}

  function Pack(cookie: bv32, tick: bv8): bv32 {
    (cookie << 8) | (tick as bv32)
  }

  function CookiePart(sequence: bv32): bv32 {
    sequence >> 8
  }

  function SentTick(sequence: bv32): bv8 {
    (sequence & 0xFF) as bv8
  }

  function Sequence(ip: bv32, port: bv16, secret: bv32, elapsed: Millis): bv32 {
    Pack(Cookie(ip, port, secret), Tick(elapsed))
  }

  /** The peer acknowledges the number after the one sent. */
  function Acknowledged(sequence: bv32): bv32 {
    sequence + 1
  }

  /** `get_acknowledgement().wrapping_sub(1)`. */
  function Recovered(acknowledgement: bv32): bv32 {
    acknowledgement - 1
  }

  predicate Matches(sequence: bv32, ip: bv32, port: bv16, secret: bv32) {
    CookiePart(sequence) == Cookie(ip, port, secret)
  }

  /** The subtraction wraps at 2^32 before the remainder is taken. */
  function ElapsedSince(now: Millis, sequence: bv32): Millis {
    (((Tick(now) as int - SentTick(sequence) as int) % 0x1_0000_0000) % 256) * 4
  }

  predicate ReportsRtt(wait: Millis) {
    wait <= SPAN_MS
  }

  /** The cookie leaves the timestamp its bits: it fits 24. */
  lemma CookieFits(ip: bv32, port: bv16, secret: bv32)
    ensures Cookie(ip, port, secret) < 0x100_0000
  {
    hide Mix, Truncated;
    TopBits(Mix(Seed(ip, port, secret)));
  }

  lemma TopBits(m: bv64)
    ensures Truncated(m) < 0x100_0000
  {}

  lemma Packed(cookie: bv32, tick: bv8)
    requires cookie < 0x100_0000
    ensures CookiePart(Pack(cookie, tick)) == cookie
    ensures SentTick(Pack(cookie, tick)) == tick
  {}

  lemma IncrementUndone(sequence: bv32)
    ensures Recovered(Acknowledged(sequence)) == sequence
  {}

  /** What a SYN/ACK or RST acknowledges, with the increment undone, is recognised and carries the tick. */
  lemma AcknowledgementMatches(ip: bv32, port: bv16, secret: bv32, elapsed: Millis)
    ensures var sequence := Recovered(Acknowledged(Sequence(ip, port, secret, elapsed)));
            Matches(sequence, ip, port, secret) && SentTick(sequence) == Tick(elapsed)
  {
    hide Cookie, Tick, SentTick, Pack, CookiePart, Recovered, Acknowledged;
    CookieFits(ip, port, secret);
    Packed(Cookie(ip, port, secret), Tick(elapsed));
    IncrementUndone(Sequence(ip, port, secret, elapsed));
  }

  /** Exactly the sequence numbers made of the cookie and some tick are recognised. */
  lemma MatchesIff(sequence: bv32, ip: bv32, port: bv16, secret: bv32)
    ensures Matches(sequence, ip, port, secret) <==> sequence == Pack(Cookie(ip, port, secret), SentTick(sequence))
  {
    hide Cookie, SentTick, Pack, CookiePart;
    CookieFits(ip, port, secret);
    Packed(Cookie(ip, port, secret), SentTick(sequence));
    Repacked(sequence);
  }

  lemma Repacked(sequence: bv32)
    ensures Pack(CookiePart(sequence), SentTick(sequence)) == sequence
  {}

  // ----- round-trip times

  function Distance(a: Millis, b: Millis): Millis {
    if a < b then b - a else a - b
  }

  /** The time between sending and the response, as measured from the acknowledgement. */
  function Measured(ip: bv32, port: bv16, secret: bv32, sent: Millis, now: Millis): Millis {
    ElapsedSince(now, Recovered(Acknowledged(Sequence(ip, port, secret, sent))))
  }

  lemma TickValue(elapsed: Millis)
    ensures Tick(elapsed) as int == (elapsed / 4) % 256
  {}

  lemma MeasuredTicks(ip: bv32, port: bv16, secret: bv32, sent: Millis, now: Millis)
    requires sent <= now
    ensures Measured(ip, port, secret, sent, now) == ((now / 4 - sent / 4) % 256) * 4
  {
    hide Sequence, Tick, SentTick, Recovered, Acknowledged, Matches;
    AcknowledgementMatches(ip, port, secret, sent);
    TickValue(now);
    TickValue(sent);
    WrapsAway(now / 4, sent / 4);
  }

  lemma WrapsAway(a: nat, b: nat)
    ensures ((a % 256 - b % 256) % 0x1_0000_0000) % 256 == (a - b) % 256
  {}

  /** The measurement is within one tick of the truth if and only if fewer than 256 ticks have passed. */
  lemma RttExactIff(ip: bv32, port: bv16, secret: bv32, sent: Millis, now: Millis)
    requires sent <= now
    ensures Distance(Measured(ip, port, secret, sent, now), now - sent) < 4 <==> now / 4 - sent / 4 < 256
  {
    hide Measured;
    MeasuredTicks(ip, port, secret, sent, now);
    var ticks: nat := now / 4 - sent / 4;
    Wraps(ticks);
  }

  lemma Wraps(ticks: nat)
    ensures ticks % 256 == ticks <==> ticks < 256
    ensures ticks >= 256 ==> ticks % 256 <= ticks - 256
  {}

  /** Measured within one tick whenever the packet is sent. */
  ghost predicate AlwaysWithinTick(ip: bv32, port: bv16, secret: bv32, delay: Millis) {
    forall sent: Millis :: WithinTick(ip, port, secret, sent, delay)
  }

  predicate WithinTick(ip: bv32, port: bv16, secret: bv32, sent: Millis, delay: Millis) {
    Distance(Measured(ip, port, secret, sent, sent + delay), delay) < 4
  }

  /** Delays of up to 1020 ms are measured within one tick whenever they start; longer ones are not. */
  lemma RttBound(ip: bv32, port: bv16, secret: bv32, delay: Millis)
    ensures AlwaysWithinTick(ip, port, secret, delay) <==> delay <= 1020
  {
    hide Measured;
    if delay <= 1020 {
      forall sent: Millis
        ensures WithinTick(ip, port, secret, sent, delay)
      {
        RttExactIff(ip, port, secret, sent, sent + delay);
      }
    } else {
      RttExactIff(ip, port, secret, 3, 3 + delay);
      assert !WithinTick(ip, port, secret, 3, delay);
    }
  }

  /** Every delay up to the waiting time is measured within one tick. */
  ghost predicate ExactUpTo(ip: bv32, port: bv16, secret: bv32, wait: Millis) {
    forall delay: Millis :: delay <= wait ==> AlwaysWithinTick(ip, port, secret, delay)
  }

  /** A waiting time under which every delay is measured exactly is one of at most 1020 ms. */
  lemma WaitIff(ip: bv32, port: bv16, secret: bv32, wait: Millis)
    ensures ExactUpTo(ip, port, secret, wait) <==> wait <= 1020
  {
    hide AlwaysWithinTick;
    forall delay: Millis
      ensures AlwaysWithinTick(ip, port, secret, delay) <==> delay <= 1020
    {
      RttBound(ip, port, secret, delay);
    }
    assert !AlwaysWithinTick(ip, port, secret, 1021);
  }

  /**
   * The guard on the waiting time is too wide by four milliseconds: the times it passes although
   * some delay within them is measured wrongly are those from 1021 ms to 1024 ms.
   */
  lemma GuardAdmitsWrap(ip: bv32, port: bv16, secret: bv32, wait: Millis)
    ensures ReportsRtt(wait) && !ExactUpTo(ip, port, secret, wait) <==> 1021 <= wait <= 1024
    ensures Measured(ip, port, secret, 3, 3 + 1021) == 0
  {
    hide Measured, ExactUpTo;
    WaitIff(ip, port, secret, wait);
    MeasuredTicks(ip, port, secret, 3, 3 + 1021);
  }

  /**
   * Every reply of a scan is measured within one tick: packets leave from time zero until `last`,
   * and replies are heard until `wait` after that.
   */
  ghost predicate AllHeardExactly(ip: bv32, port: bv16, secret: bv32, last: Millis, wait: Millis) {
    forall sent: Millis, delay: Millis :: sent <= last && sent + delay <= last + wait ==>
      WithinTick(ip, port, secret, sent, delay)
  }

  /**
   * The receiver listens during the whole scan, so what matters is the waiting time and the length
   * of the scan together. No waiting time is short enough for a scan of 1024 ms or more.
   */
  lemma HeardIff(ip: bv32, port: bv16, secret: bv32, last: Millis, wait: Millis)
    ensures AllHeardExactly(ip, port, secret, last, wait) <==> last + wait <= 1023
  {
    hide Measured;
    if last + wait <= 1023 {
      forall sent: Millis, delay: Millis | sent <= last && sent + delay <= last + wait
        ensures WithinTick(ip, port, secret, sent, delay)
      {
        RttExactIff(ip, port, secret, sent, sent + delay);
      }
    } else {
      RttExactIff(ip, port, secret, 0, last + wait);
      assert !WithinTick(ip, port, secret, 0, last + wait);
    }
  }
}
