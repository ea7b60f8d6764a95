/** The Redis variant of the expiry sweep: whole-second TTLs and timestamps cut to
    milliseconds by dropping decimal digits. */
module RedisSweep {
  import opened Times
  import opened Text
  import opened Names
  import opened Lifecycle
  import opened Arithmetic

  // ---------- decimal strings ----------

  function DigitChar(d: nat): char
    requires d < 10
  {
    ('0' as int + d) as char
  }

  function DigitValue(c: char): (d: int) {
    c as int - '0' as int
  }

  function Decimal(n: nat): (s: string)
    ensures |s| >= 1
  {
    if n < 10 then [DigitChar(n)] else Decimal(n / 10) + [DigitChar(n % 10)]
  }

  /** `strconv.FormatInt(n, 10)`. */
  function FormatInt(n: int): string {
    if n >= 0 then Decimal(n) else "-" + Decimal(-n)
  }

  /** `tonumber` on a string of digits; the empty string is not a number. */
  function ToNumber(s: string): Option<int> {
    if s == "" then None
    else if |s| == 1 then Some(DigitValue(s[0]))
    else match ToNumber(s[..|s| - 1])
      case None => None
      case Some(v) => Some(10 * v + DigitValue(s[|s| - 1]))
  }

  /** `string.sub(s, 1, -7)`. */
  function DropSix(s: string): string {
    if |s| >= 7 then s[..|s| - 6] else ""
  }

  /** `tonumber` on digits that may follow a minus sign. */
  function SignedNumber(s: string): Option<int> {
    if s == "" || s[0] != '-' then ToNumber(s)
    else match ToNumber(s[1..])
      case None => None
      case Some(v) => Some(-v)
  }

  /** The millisecond value the script computes from a nanosecond timestamp. */
  function ScriptMillis(ns: int): Option<int> {
    SignedNumber(DropSix(FormatInt(ns)))
  }

  function Pow10(k: nat): nat {
    if k == 0 then 1 else 10 * Pow10(k - 1)
  }

  lemma {:induction false} NumberOfDecimal(n: nat)
    ensures ToNumber(Decimal(n)) == Some(n)
  {
    if n < 10 {
    } else {
      NumberOfDecimal(n / 10);
      var s := Decimal(n);
      assert s[..|s| - 1] == Decimal(n / 10);
    }
  }

  lemma {:induction false} DropDigits(n: nat, k: nat)
    requires n >= Pow10(k)
    ensures |Decimal(n)| > k && Pow10(k) > 0
    ensures Decimal(n)[..|Decimal(n)| - k] == Decimal(n / Pow10(k))
  {
    PowPositive(k);
    if k == 0 {
      assert Decimal(n)[..|Decimal(n)|] == Decimal(n);
    } else {
      PowPositive(k - 1);
      TenTimes(n, Pow10(k - 1));
      DropDigits(n / 10, k - 1);
      var s, t := Decimal(n), Decimal(n / 10);
      assert s == t + [DigitChar(n % 10)];
      assert s[..|s| - k] == t[..|t| - (k - 1)];
    }
  }

  lemma PowPositive(k: nat)
    ensures Pow10(k) >= 1
  {
  }

  lemma TenTimes(n: nat, p: nat)
    requires p >= 1 && n >= 10 * p
    ensures n / 10 >= p && n / (10 * p) == (n / 10) / p
  {
    var q, r := n / 10, n % 10;
    var a, b := q / p, q % p;
    assert n == 10 * p * a + (10 * b + r);
    assert 0 <= 10 * b + r < 10 * p;
    DivModUnique(n, 10 * p, a, 10 * b + r);
  }

  /** Few digits, few decimals: a number below `Pow10(k)` prints in at most `k`. */
  lemma {:induction false} ShortDecimal(n: nat, k: nat)
    requires k >= 1 && n < Pow10(k)
    ensures |Decimal(n)| <= k
  {
    assert Pow10(1) == 10 * Pow10(0) == 10;
    if n < 10 {
    } else {
      ShortDecimal(n / 10, k - 1);
    }
  }

  lemma {:induction false} DecimalFirst(n: nat)
    ensures Decimal(n)[0] != '-'
  {
    if n < 10 {
    } else {
      DecimalFirst(n / 10);
    }
  }

  /** What is left of the digits once six are dropped. */
  lemma DigitsLeft(n: nat)
    ensures |Decimal(n)| > 6 <==> n >= MILLISECOND
    ensures n >= MILLISECOND ==> Decimal(n)[..|Decimal(n)| - 6] == Decimal(n / MILLISECOND)
    ensures n >= MILLISECOND ==> ToNumber(Decimal(n / MILLISECOND)) == Some(n / MILLISECOND)
  {
    assert Pow10(6) == MILLISECOND by {
      assert Pow10(3) == 1000 && Pow10(6) == 10 * (10 * (10 * Pow10(3)));
    }
    if n >= MILLISECOND {
      DropDigits(n, 6);
      NumberOfDecimal(n / MILLISECOND);
    } else {
      ShortDecimal(n, 6);
    }
  }

  /** At least a millisecond from the epoch: seven digits or more. */
  predicate Readable(ns: int) {
    ns >= MILLISECOND || ns <= -MILLISECOND
  }

  /** Dropping six digits is division by a million, towards zero, exactly for
      timestamps of seven or more digits; shorter ones are not numbers to the script
      at all. */
  lemma ScriptMillisExactly(ns: int)
    ensures ScriptMillis(ns).Some? <==> Readable(ns)
    ensures ns >= MILLISECOND ==> ScriptMillis(ns) == Some(ns / MILLISECOND)
    ensures ns <= -MILLISECOND ==> ScriptMillis(ns) == Some(-(-ns / MILLISECOND))
  {
    if ns >= 0 {
      DigitsLeft(ns);
      DecimalFirst(ns);
    } else {
      DigitsLeft(-ns);
      DropSixSigned(Decimal(-ns));
    }
  }

  lemma DropSixSigned(s: string)
    requires s != ""
    ensures SignedNumber(DropSix("-" + s)) ==
            if |s| > 6 && ToNumber(s[..|s| - 6]).Some? then Some(-ToNumber(s[..|s| - 6]).value) else None
  {
    if |s| > 6 {
      assert DropSix("-" + s) == "-" + s[..|s| - 6];
      assert ("-" + s[..|s| - 6])[1..] == s[..|s| - 6];
    } else if |s| == 6 {
      assert DropSix("-" + s) == "-";
    }
  }

  // ---------- the expiry decision ----------

  /** `int64(ttl.Seconds())`, which truncates towards zero. */
  function StoredSeconds(ttl: int): int {
    if ttl >= 0 then ttl / SECOND else -(-ttl / SECOND)
  }

  /** The script's test. */
  predicate ScriptIdle(now: int, ch: Channel) {
    && ScriptMillis(now).Some? && ScriptMillis(ch.lastActive).Some?
    && ScriptMillis(now).value - ScriptMillis(ch.lastActive).value >= StoredSeconds(ch.ttl) * 1000
  }

  /** Both instants are past the first millisecond of 1970. */
  predicate Timestamped(now: int, ch: Channel) {
    now >= MILLISECOND && ch.lastActive >= MILLISECOND
  }

  lemma ScriptIdleMillis(now: int, ch: Channel)
    requires Timestamped(now, ch)
    ensures ScriptIdle(now, ch) <==>
            now / MILLISECOND - ch.lastActive / MILLISECOND >= StoredSeconds(ch.ttl) * 1000
  {
    ScriptMillisExactly(now);
    ScriptMillisExactly(ch.lastActive);
  }

  /** For whole-second TTLs the script expires everything the nanosecond rule
      expires, and nothing that has been idle at most TTL minus one millisecond. */
  lemma ScriptWithinOneMillisecond(now: int, ch: Channel)
    requires Timestamped(now, ch) && ch.ttl % SECOND == 0
    ensures Idle(now, ch) ==> ScriptIdle(now, ch)
    ensures ScriptIdle(now, ch) ==> now - ch.lastActive > ch.ttl - MILLISECOND
  {
    ScriptIdleMillis(now, ch);
    WholeTTL(ch.ttl);
    CutAgeExactly(now, ch.lastActive, StoredSeconds(ch.ttl) * 1000);
  }

  lemma WholeTTL(ttl: int)
    requires ttl % SECOND == 0
    ensures ttl == StoredSeconds(ttl) * 1000 * MILLISECOND
  {
  }

  /** For every TTL, whole seconds or not: the script is never late, and early by less
      than the second it cuts off plus a millisecond. */
  lemma ScriptWithinOneSecond(now: int, ch: Channel)
    requires Timestamped(now, ch) && ch.ttl >= 0
    ensures Idle(now, ch) ==> ScriptIdle(now, ch)
    ensures ScriptIdle(now, ch) ==> now - ch.lastActive > ch.ttl - SECOND - MILLISECOND
  {
    var whole := StoredSeconds(ch.ttl) * SECOND;
    assert whole <= ch.ttl < whole + SECOND;
    ScriptIdleMillis(now, ch);
    ScriptIdleMillis(now, ch.(ttl := whole));
    assert StoredSeconds(whole) == StoredSeconds(ch.ttl);
    ScriptWithinOneMillisecond(now, ch.(ttl := whole));
  }

  /** A TTL below one second is stored as zero: the next sweep ends the channel,
      however recently it was active. */
  lemma SubSecondTTLEndsAtOnce(now: int, ch: Channel)
    requires Timestamped(now, ch) && 0 <= ch.ttl < SECOND && ch.lastActive <= now
    ensures ScriptIdle(now, ch)
  {
    ScriptIdleMillis(now, ch);
  }

  /** Exactly when the two rules disagree, for every TTL: between the whole seconds of
      the TTL and the TTL itself, or within the millisecond before those whole seconds
      when the sub-millisecond part of the clock has wrapped below that of the last
      touch. */
  lemma RulesDisagreeExactlyWhen(now: int, ch: Channel)
    requires Timestamped(now, ch) && ch.ttl >= 0
    ensures var whole, age := StoredSeconds(ch.ttl) * SECOND, now - ch.lastActive;
            ScriptIdle(now, ch) != Idle(now, ch) <==>
            whole - MILLISECOND < age < ch.ttl && (age >= whole || now % MILLISECOND < ch.lastActive % MILLISECOND)
  {
    ScriptIdleMillis(now, ch);
    WholeSeconds(ch.ttl);
    CutAgeExactly(now, ch.lastActive, StoredSeconds(ch.ttl) * 1000);
  }

  lemma WholeSeconds(ttl: int)
    requires ttl >= 0
    ensures StoredSeconds(ttl) * SECOND == StoredSeconds(ttl) * 1000 * MILLISECOND <= ttl
  {
  }

  /** When the distance of the cut instants reaches `t`. */
  lemma CutAgeExactly(now: int, last: int, t: int)
    ensures now / MILLISECOND - last / MILLISECOND >= t <==>
            now - last >= t * MILLISECOND
            || (now - last > t * MILLISECOND - MILLISECOND && now % MILLISECOND < last % MILLISECOND)
  {
    CutDistance(now / MILLISECOND - last / MILLISECOND, now % MILLISECOND, last % MILLISECOND, t);
  }

  lemma CutDistance(d: int, r: int, s: int, t: int)
    requires 0 <= r < MILLISECOND && 0 <= s < MILLISECOND
    ensures var age := d * MILLISECOND + (r - s);
            d >= t <==> age >= t * MILLISECOND || (age > t * MILLISECOND - MILLISECOND && r < s)
  {
  }

  // ---------- the whole sweep ----------

  /** The script can read the last touch of every open channel among `ks`. */
  predicate AllReadable(reg: Registry, ks: set<string>) {
    forall k :: k in ks && k in reg && reg[k].state == Open ==> Readable(reg[k].lastActive)
  }

  /** The hash the script works on: a record per channel name. */
  class RedisHash {
    var fields: Registry

    constructor ()
      ensures fields == map[]
    {
      fields := map[];
    }

    /** `sweepScript`: one pass over HGETALL, deleting or rewriting records. A
        timestamp too short to cut is not a number and stops the script; what it has
        written by then stays written, and no event is reported for it. */
    method SweepScript(now: int) returns (r: Option<seq<Event>>)
      requires Keyed(fields)
      modifies this
      ensures r.Some? <==> Readable(now) && AllReadable(old(fields), old(fields).Keys)
      ensures r.Some? ==> fields == AfterSweep(old(fields), ScriptIdle, now)
      ensures r.Some? ==> SweepEvents(old(fields), ScriptIdle, now, r.value)
      ensures r.None? ==> exists done :: done <= old(fields).Keys && fields == SweptPart(old(fields), ScriptIdle, now, done)
    {
      ScriptMillisExactly(now);
      SweptPartEnds(fields, ScriptIdle, now);
      if ScriptMillis(now).None? {
        assert fields == SweptPart(fields, ScriptIdle, now, {});
        return None;
      }
      var evs: seq<Event> := [];
      var todo := fields.Keys;
      ghost var done: set<string> := {};
      while todo != {}
        invariant done + todo == old(fields).Keys && done !! todo
        invariant fields == SweptPart(old(fields), ScriptIdle, now, done)
        invariant PartEvents(old(fields), ScriptIdle, now, done, evs)
        invariant AllReadable(old(fields), done)
      {
        var k :| k in todo;
        SweptPartStep(old(fields), ScriptIdle, now, done, k);
        PartEventsStep(old(fields), ScriptIdle, now, done, k, evs);
        var rec := fields[k];
        if rec.state == Open {
          ScriptMillisExactly(rec.lastActive);
          var last := ScriptMillis(rec.lastActive);
          if last.None? {
            return None;
          }
          var age := ScriptMillis(now).value - last.value;
          if age >= StoredSeconds(rec.ttl) * 1000 {
            if rec.name.IsPrivate() {
              fields := fields - {k};
              evs := evs + [Event(DeletedEvent, rec.name, now)];
            } else {
              fields := fields[k := rec.(state := Closed)];
              evs := evs + [Event(ClosedEvent, rec.name, now)];
            }
          }
        }
        todo := todo - {k};
        done := done + {k};
      }
      assert done == old(fields).Keys;
      SweptPartEnds(old(fields), ScriptIdle, now);
      return Some(evs);
    }
  }

  /** The two sweeps leave a channel in the same state unless it is within the last
      millisecond of its TTL. */
  lemma SweepsAgreeOutsideLastMillisecond(reg: Registry, now: int, k: string)
    requires k in reg && Timestamped(now, reg[k]) && reg[k].ttl >= 0 && reg[k].ttl % SECOND == 0
    requires !(reg[k].ttl - MILLISECOND < now - reg[k].lastActive < reg[k].ttl)
    ensures var a, b := AfterSweep(reg, Idle, now), AfterSweep(reg, ScriptIdle, now);
            (k in a <==> k in b) && (k in a ==> a[k] == b[k])
  {
    assert Idle(now, reg[k]) == ScriptIdle(now, reg[k]) by {
      ScriptWithinOneMillisecond(now, reg[k]);
    }
  }
}
