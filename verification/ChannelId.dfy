/** Ids of public channels, and ids that are put together from two parts. */
module ChannelId {
  import opened Order

  /** `str::split_once`. */
  function SplitOnce(s: string, c: char): (r: Option<(string, string)>)
    ensures r.Some? ==> s == r.value.0 + [c] + r.value.1 && c !in r.value.0
    ensures r.None? ==> c !in s
  {
    if s == [] then None
    else if s[0] == c then Some(([], s[1..]))
    else
      match SplitOnce(s[1..], c)
      case None => None
      case Some((head, tail)) => Some(([s[0]] + head, tail))
  }

  predicate Digit(c: char) { '0' <= c <= '9' }

  predicate AllDigits(s: string) { forall i | 0 <= i < |s| :: Digit(s[i]) }

  /** `str::parse` of a number without a sign. */
  function Decimal(s: string): (n: nat)
    requires AllDigits(s)
  {
    if s == [] then 0
    else assert Digit(s[|s| - 1]); 10 * Decimal(s[..|s| - 1]) + (s[|s| - 1] as int - '0' as int)
  }

  predicate HexDigit(c: char) { Digit(c) || 'a' <= c <= 'f' }

  /** `public_channel_created_at_ms` finds a time. */
  predicate PublicChannelId(id: string) {
    && "pc-" <= id
    && var parts := SplitOnce(id[3..], '-');
    && parts.Some?
    && var (millis, suffix) := parts.value;
    && AllDigits(millis)
    && (millis == [] || millis[0] != '0')
    && 0 < Decimal(millis) <= I64_MAX
    && |suffix| == 16
    && forall i | 0 <= i < 16 :: HexDigit(suffix[i])
  }

  // ------------------------------------------------------------------ what these ids are

  /** How a number is written. */
  function Written(n: nat): (s: string) {
    if n < 10 then ["0123456789"[n]] else Written(n / 10) + ["0123456789"[n % 10]]
  }

  ghost predicate WrittenAs(id: string, n: nat, suffix: string) {
    && id == "pc-" + Written(n) + ['-'] + suffix && 0 < n <= I64_MAX
    && |suffix| == 16 && forall c | c in suffix :: c in "0123456789abcdef"
  }

  /** `pc-`, the milliseconds of a time, `-`, and sixteen hexadecimal digits. */
  ghost predicate NamesChannel(id: string) { exists n, suffix :: WrittenAs(id, n, suffix) }

  lemma DigitOf(d: nat)
    requires d < 10
    ensures Digit("0123456789"[d]) && "0123456789"[d] as int - '0' as int == d
  {
  }

  lemma DigitIs(c: char)
    requires Digit(c)
    ensures var d := c as int - '0' as int; 0 <= d < 10 && "0123456789"[d] == c
  {
    DigitOf(c as int - '0' as int);
  }

  /** Reading what was written. */
  lemma {:induction false} ReadWritten(n: nat)
    ensures Written(n) != [] && AllDigits(Written(n)) && Decimal(Written(n)) == n
    ensures n > 0 ==> Written(n)[0] != '0'
  {
    DigitOf(n % 10);
    if n < 10 {
      assert Written(n)[..0] == [];
    } else {
      ReadWritten(n / 10);
      var s := Written(n / 10);
      assert (s + ["0123456789"[n % 10]])[..|s|] == s;
    }
  }

  /** Writing what was read, if it does not begin with a zero. */
  lemma {:induction false} WriteRead(s: string)
    requires s != [] && AllDigits(s) && s[0] != '0'
    ensures Decimal(s) > 0 && Written(Decimal(s)) == s
  {
    var t, c := s[..|s| - 1], s[|s| - 1];
    DigitIs(c);
    assert s == t + [c];
    if t == [] {
      assert c != '0';
    } else {
      WriteRead(t);
      LastDigit(Decimal(t), c as int - '0' as int);
    }
  }

  lemma LastDigit(n: nat, d: nat)
    requires n > 0 && d < 10
    ensures (10 * n + d) / 10 == n && (10 * n + d) % 10 == d && 10 * n + d >= 10
  {
  }

  lemma {:induction false} SplitAt(head: string, c: char, tail: string)
    requires c !in head
    ensures SplitOnce(head + [c] + tail, c) == Some((head, tail))
  {
    var s := head + [c] + tail;
    if head == [] {
      assert s[1..] == tail;
    } else {
      SplitAt(head[1..], c, tail);
      assert s[1..] == head[1..] + [c] + tail;
      assert head == [head[0]] + head[1..];
    }
  }

  lemma HexIs(c: char)
    ensures HexDigit(c) <==> c in "0123456789abcdef"
  {
    var all := "0123456789abcdef";
    if Digit(c) {
      assert all[c as int - '0' as int] == c;
    } else if 'a' <= c <= 'f' {
      assert all[10 + (c as int - 'a' as int)] == c;
    }
  }

  /** The ids that the code takes for public channels are those, and no others. */
  lemma PublicChannelIdIff(id: string)
    ensures PublicChannelId(id) <==> NamesChannel(id)
  {
    if PublicChannelId(id) {
      var (millis, suffix) := SplitOnce(id[3..], '-').value;
      WriteRead(millis);
      forall c | c in suffix ensures c in "0123456789abcdef" { HexIs(c); }
      assert id == "pc-" + id[3..];
      assert WrittenAs(id, Decimal(millis), suffix);
    }
    if NamesChannel(id) {
      var n, suffix :| WrittenAs(id, n, suffix);
      WrittenIsPublic(id, n, suffix);
    }
  }

  lemma WrittenIsPublic(id: string, n: nat, suffix: string)
    requires WrittenAs(id, n, suffix)
    ensures PublicChannelId(id)
  {
    ReadWritten(n);
    var millis := Written(n);
    assert '-' !in millis;
    SplitAt(millis, '-', suffix);
    assert id[3..] == millis + ['-'] + suffix;
    forall i | 0 <= i < 16 ensures HexDigit(suffix[i]) { HexIs(suffix[i]); }
  }

  /** No separator of two ids occurs in one. */
  lemma NoDot(id: string, n: nat, suffix: string)
    requires WrittenAs(id, n, suffix)
    ensures '.' !in id && '/' !in id
  {
    ReadWritten(n);
    forall c | c in suffix ensures c != '.' && c != '/' { HexIs(c); }
    forall i | 0 <= i < |id| ensures id[i] != '.' && id[i] != '/' {
      var millis := Written(n);
      if i < 3 {
        assert id[i] == "pc-"[i] && "pc-"[0] == 'p' && "pc-"[1] == 'c' && "pc-"[2] == '-';
      } else if i < 3 + |millis| {
        assert id[i] == millis[i - 3] && Digit(millis[i - 3]);
      } else if i > 3 + |millis| {
        assert id[i] == suffix[i - 4 - |millis|] && suffix[i - 4 - |millis|] in suffix;
      }
    }
  }
}
