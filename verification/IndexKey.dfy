/** The keys of a time index: twenty digits of seconds, a dash, the id, a slash and the id again. How
    they are read back, and when their order is that of time and id. */
module IndexKey {
  import opened ChannelId
  import opened IndexMerge
  import opened Order

  const TIME_DIGITS: nat := 20

  /** The last `k` digits of a number. */
  function Padded(n: nat, k: nat): (s: string) {
    if k == 0 then [] else Padded(n / 10, k - 1) + ["0123456789"[n % 10]]
  }

  /** The key of an entry behind the prefix of its index. */
  function Key(p: Pos): (s: string)
    requires 0 <= p.at
  {
    Padded(p.at, TIME_DIGITS) + ['-'] + (p.id + ['/'] + p.id)
  }

  /** `str::rsplit_once`. */
  function SplitLast(s: string, c: char): (r: Option<(string, string)>)
    ensures r.Some? ==> s == r.value.0 + [c] + r.value.1 && c !in r.value.1
    ensures r.None? ==> c !in s
  {
    if s == [] then None
    else if s[|s| - 1] == c then Some((s[..|s| - 1], []))
    else
      match SplitLast(s[..|s| - 1], c)
      case None => None
      case Some((head, tail)) => Some((head, tail + [s[|s| - 1]]))
  }

  /** `parse_entry`, behind the prefix. */
  function Parsed(s: string): (p: Option<Pos>) {
    match SplitLast(s, '/')
    case None => None
    case Some((sortKey, id)) =>
      match SplitOnce(sortKey, '-')
      case None => None
      case Some((time, sortId)) =>
        if |time| != TIME_DIGITS || !AllDigits(time) || sortId != id || id == [] || Decimal(time) > I64_MAX then None
        else Some(Pos(Decimal(time), id))
  }

  // ------------------------------------------------------------------ reading back

  function Pow10(k: nat): (n: nat) { if k == 0 then 1 else 10 * Pow10(k - 1) }

  lemma {:induction false} PaddedDigits(n: nat, k: nat)
    ensures |Padded(n, k)| == k && AllDigits(Padded(n, k))
    ensures n < Pow10(k) ==> Decimal(Padded(n, k)) == n
  {
    if k > 0 {
      PaddedDigits(n / 10, k - 1);
      DigitOf(n % 10);
      var s := Padded(n / 10, k - 1);
      assert (s + ["0123456789"[n % 10]])[..|s|] == s;
    }
  }

  lemma {:induction false} PaddedDecimal(s: string)
    requires AllDigits(s)
    ensures Padded(Decimal(s), |s|) == s
  {
    if s != [] {
      var t, c := s[..|s| - 1], s[|s| - 1];
      DigitIs(c);
      PaddedDecimal(t);
      var d: nat := c as int - '0' as int;
      assert (10 * Decimal(t) + d) / 10 == Decimal(t) && (10 * Decimal(t) + d) % 10 == d;
      assert s == t + [c];
    }
  }

  /** Every time of an index has twenty digits. */
  lemma TimesFit()
    ensures I64_MAX < Pow10(TIME_DIGITS)
  {
    assert Pow10(4) == 10_000;
    assert Pow10(8) == 10_000 * Pow10(4);
    assert Pow10(12) == 10_000 * Pow10(8);
    assert Pow10(16) == 10_000 * Pow10(12);
    assert Pow10(20) == 10_000 * Pow10(16);
  }

  lemma {:induction false} SplitLastAt(head: string, c: char, tail: string)
    requires c !in tail
    ensures SplitLast(head + [c] + tail, c) == Some((head, tail))
  {
    var s := head + [c] + tail;
    if tail == [] {
      assert s[..|s| - 1] == head;
    } else {
      var init := tail[..|tail| - 1];
      assert tail == init + [tail[|tail| - 1]];
      SplitLastAt(head, c, init);
      assert s[..|s| - 1] == head + [c] + init;
    }
  }

  lemma NoDash(n: nat, rest: string)
    ensures SplitOnce(Padded(n, TIME_DIGITS) + ['-'] + rest, '-') == Some((Padded(n, TIME_DIGITS), rest))
  {
    PaddedDigits(n, TIME_DIGITS);
    assert '-' !in Padded(n, TIME_DIGITS);
    SplitAt(Padded(n, TIME_DIGITS), '-', rest);
  }

  /** A key is read back as its entry exactly when the id is proper, and is dropped otherwise. */
  lemma KeyRoundTrip(p: Pos)
    requires 0 <= p.at <= I64_MAX
    ensures Parsed(Key(p)) == if ProperId(p.id) then Some(p) else None
  {
    var time := Padded(p.at, TIME_DIGITS);
    PaddedDigits(p.at, TIME_DIGITS);
    TimesFit();
    if '/' !in p.id {
      assert Key(p) == (time + ['-'] + p.id) + ['/'] + p.id;
      SplitLastAt(time + ['-'] + p.id, '/', p.id);
      NoDash(p.at, p.id);
    } else {
      var (head, tail) := SplitLast(p.id, '/').value;
      var sortId := p.id + ['/'] + head;
      assert Key(p) == (time + ['-'] + sortId) + ['/'] + tail;
      SplitLastAt(time + ['-'] + sortId, '/', tail);
      NoDash(p.at, sortId);
      assert '/' == sortId[|p.id|] && '/' in sortId && '/' !in tail;
    }
  }

  /** Whatever is read as an entry is the key of that entry, and its id is proper. */
  lemma ParsedIsKey(s: string)
    requires Parsed(s).Some?
    ensures var p := Parsed(s).value;
            0 <= p.at <= I64_MAX && ProperId(p.id) && s == Key(p)
  {
    var (sortKey, id) := SplitLast(s, '/').value;
    var (time, sortId) := SplitOnce(sortKey, '-').value;
    PaddedDecimal(time);
    assert s == sortKey + ['/'] + id && sortKey == time + ['-'] + id;
    assert s == time + ['-'] + (id + ['/'] + id);
  }

  // ------------------------------------------------------------------ the order of keys

  lemma {:induction false} SamePrefix(t: string, x: string, y: string)
    ensures StrLess(t + x, t + y) <==> StrLess(x, y)
  {
    if t == [] {
      assert t + x == x && t + y == y;
    } else {
      SamePrefix(t[1..], x, y);
      assert (t + x)[1..] == t[1..] + x && (t + y)[1..] == t[1..] + y;
    }
  }

  lemma {:induction false} LessStays(a: string, b: string, x: string, y: string)
    requires |a| == |b| && StrLess(a, b)
    ensures StrLess(a + x, b + y)
    decreases |a|
  {
    assert (a + x)[1..] == a[1..] + x && (b + y)[1..] == b[1..] + y;
    if a[0] == b[0] {
      LessStays(a[1..], b[1..], x, y);
    }
  }

  lemma DigitsRise(c: nat, d: nat)
    requires c < d < 10
    ensures "0123456789"[c] < "0123456789"[d]
  {
    DigitOf(c);
    DigitOf(d);
  }

  lemma TensAndOnes(m: nat, n: nat, k: nat)
    requires m < n < Pow10(k)
    ensures k > 0 && n / 10 < Pow10(k - 1) && (m / 10 < n / 10 || (m / 10 == n / 10 && m % 10 < n % 10))
  {
    assert m == 10 * (m / 10) + m % 10 && n == 10 * (n / 10) + n % 10;
  }

  lemma LastDigitRises(s: string, c: nat, d: nat)
    requires c < d < 10
    ensures StrLess(s + ["0123456789"[c]], s + ["0123456789"[d]])
  {
    DigitsRise(c, d);
    SamePrefix(s, ["0123456789"[c]], ["0123456789"[d]]);
  }

  /** Numbers of the same width are ordered like their digits. */
  lemma {:induction false} PaddedOrder(m: nat, n: nat, k: nat)
    requires m < n < Pow10(k)
    ensures StrLess(Padded(m, k), Padded(n, k))
  {
    TensAndOnes(m, n, k);
    if m / 10 < n / 10 {
      PaddedDigits(m / 10, k - 1);
      PaddedDigits(n / 10, k - 1);
      PaddedOrder(m / 10, n / 10, k - 1);
      LessStays(Padded(m / 10, k - 1), Padded(n / 10, k - 1), ["0123456789"[m % 10]], ["0123456789"[n % 10]]);
    } else {
      LastDigitRises(Padded(m / 10, k - 1), m % 10, n % 10);
    }
  }

  /** Where two different texts first differ, or the shorter one ends. */
  lemma {:induction false} FirstDifference(a: string, b: string) returns (i: nat)
    requires a != b
    ensures i <= |a| && i <= |b| && a[..i] == b[..i] && (i < |a| || i < |b|)
    ensures i < |a| && i < |b| ==> a[i] != b[i]
  {
    if a == [] || b == [] || a[0] != b[0] {
      i := 0;
    } else {
      assert a == [a[0]] + a[1..] && b == [b[0]] + b[1..];
      var j := FirstDifference(a[1..], b[1..]);
      i := j + 1;
      assert a[..i] == [a[0]] + a[1..][..j] && b[..i] == [b[0]] + b[1..][..j];
    }
  }

  /** One id continues another with a character that sorts before the slash. */
  predicate Continues(a: string, b: string) { a < b && b[|a|] < '/' }

  lemma IdOrder(a: string, b: string)
    requires a != b && ProperId(a) && ProperId(b)
    ensures StrLess(a + ['/'] + a, b + ['/'] + b) <==>
            (StrLess(a, b) <==> !Continues(a, b) && !Continues(b, a))
  {
    var x, y := a + ['/'] + a, b + ['/'] + b;
    var i := FirstDifference(a, b);
    assert x[..i] == a[..i] && y[..i] == b[..i];
    assert i < |a| ==> x[i] == a[i] && a[i] != '/';
    assert i < |b| ==> y[i] == b[i] && b[i] != '/';
    StrLessIff(a, b, i);
    StrLessIff(x, y, i);
    assert a < b <==> i == |a|;
    assert b < a <==> i == |b|;
  }

  /** The keys of two entries are ordered by time and id exactly when their times differ or neither id
      continues the other with a character before the slash. */
  lemma KeyOrderIff(p: Pos, q: Pos)
    requires p != q && 0 <= p.at <= I64_MAX && 0 <= q.at <= I64_MAX && ProperId(p.id) && ProperId(q.id)
    ensures (StrLess(Key(p), Key(q)) <==> Less(p, q)) <==>
            p.at != q.at || (!Continues(p.id, q.id) && !Continues(q.id, p.id))
  {
    var x, y := p.id + ['/'] + p.id, q.id + ['/'] + q.id;
    var s, t := Padded(p.at, TIME_DIGITS), Padded(q.at, TIME_DIGITS);
    TimesFit();
    PaddedDigits(p.at, TIME_DIGITS);
    PaddedDigits(q.at, TIME_DIGITS);
    assert Key(p) == s + (['-'] + x) && Key(q) == t + (['-'] + y);
    if p.at < q.at {
      PaddedOrder(p.at, q.at, TIME_DIGITS);
      LessStays(s, t, ['-'] + x, ['-'] + y);
    } else if q.at < p.at {
      PaddedOrder(q.at, p.at, TIME_DIGITS);
      LessStays(t, s, ['-'] + y, ['-'] + x);
      OneWay(Key(q), Key(p));
    } else {
      SamePrefix(s, ['-'] + x, ['-'] + y);
      SamePrefix(['-'], x, y);
      IdOrder(p.id, q.id);
    }
  }

  lemma OneWay(a: string, b: string)
    requires StrLess(a, b)
    ensures !StrLess(b, a)
  {
    StrOrder();
  }

  /** Ids of one length are never continued. */
  lemma SameLengthAgrees(p: Pos, q: Pos)
    requires p != q && 0 <= p.at <= I64_MAX && 0 <= q.at <= I64_MAX && ProperId(p.id) && ProperId(q.id)
    requires |p.id| == |q.id|
    ensures StrLess(Key(p), Key(q)) <==> Less(p, q)
  {
    KeyOrderIff(p, q);
  }

  /** Nor are those of public channels. */
  lemma ChannelsAgree(p: Pos, q: Pos)
    requires p != q && 0 <= p.at <= I64_MAX && 0 <= q.at <= I64_MAX && NamesChannel(p.id) && NamesChannel(q.id)
    ensures ProperId(p.id) && ProperId(q.id) && (StrLess(Key(p), Key(q)) <==> Less(p, q))
  {
    var m, x :| WrittenAs(p.id, m, x);
    var n, y :| WrittenAs(q.id, n, y);
    NoDot(p.id, m, x);
    NoDot(q.id, n, y);
    NotContinued(p.id, m, x, q.id, n, y);
    NotContinued(q.id, n, y, p.id, m, x);
    KeyOrderIff(p, q);
  }

  lemma NotContinued(a: string, m: nat, x: string, b: string, n: nat, y: string)
    requires WrittenAs(a, m, x) && WrittenAs(b, n, y)
    ensures !(a < b)
  {
    if a < b {
      var rest := b[|a|..];
      assert b == a + rest;
      TailOf(b, m, x + rest);
      TailOf(b, n, y);
      assert false;
    }
  }

  lemma TailOf(id: string, n: nat, tail: string)
    requires id == "pc-" + Written(n) + ['-'] + tail
    ensures SplitOnce(id[3..], '-') == Some((Written(n), tail))
  {
    ReadWritten(n);
    assert '-' !in Written(n);
    assert id[3..] == Written(n) + ['-'] + tail;
    SplitAt(Written(n), '-', tail);
  }

  /** Two ids of one second that an index lists in the other order. */
  lemma ListedBackwardsExample(at: int)
    requires 0 <= at <= I64_MAX
    ensures var p, q := Pos(at, "a"), Pos(at, "a-");
            Less(p, q) && StrLess(Key(q), Key(p))
  {
    var p, q := Pos(at, "a"), Pos(at, "a-");
    StrLessIff("a", "a-", 1);
    assert Continues("a", "a-");
    KeyOrderIff(p, q);
    StrLessTotal(Key(p), Key(q));
    KeyRoundTrip(p);
    KeyRoundTrip(q);
  }
}
