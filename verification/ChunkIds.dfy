/** The textual chunk id `path:start-end`: how the chunker writes it and how the search
    layer reads it back. */
module ChunkIds {

  datatype Option<+T> = None | Some(value: T)

  /** A chunk id split into its path and line range. */
  datatype Location = Location(path: string, start: int, end: int)

  const I64_MAX: int := 0x7FFF_FFFF_FFFF_FFFF

  function Digit(d: nat): char
    requires d < 10
  {
    '0' + d as char
  }

  predicate IsDigit(c: char) {
    '0' <= c <= '9'
  }

  /** Decimal rendering, as `format!` writes an unsigned integer. */
  function Decimal(n: nat): string {
    if n < 10 then [Digit(n)] else Decimal(n / 10) + [Digit(n % 10)]
  }

  /** The value of a digit string. */
  function Value(s: string): nat
    requires forall c :: c in s ==> IsDigit(c)
  {
    if s == [] then 0
    else
      assert IsDigit(s[|s| - 1]);
      10 * Value(s[..|s| - 1]) + (s[|s| - 1] as int - '0' as int)
  }

  /** `str::parse::<i64>`: an optional sign, then digits, rejecting what does not fit. */
  function ParseI64(s: string): Option<int> {
    var negative := s != [] && s[0] == '-';
    var digits := if s != [] && (s[0] == '-' || s[0] == '+') then s[1..] else s;
    if digits == [] || exists c :: c in digits && !IsDigit(c) then None
    else
      var v := if negative then -(Value(digits) as int) else Value(digits);
      if -I64_MAX - 1 <= v <= I64_MAX then Some(v) else None
  }

  /** `str::split_once`. */
  function SplitFirst(s: string, sep: char): Option<(string, string)> {
    if s == [] then None
    else if s[0] == sep then Some(([], s[1..]))
    else
      match SplitFirst(s[1..], sep)
      case None => None
      case Some(p) => Some(([s[0]] + p.0, p.1))
  }

  /** `str::rsplit_once`. */
  function SplitLast(s: string, sep: char): Option<(string, string)> {
    if s == [] then None
    else
      var last := |s| - 1;
      if s[last] == sep then Some((s[..last], []))
      else
        match SplitLast(s[..last], sep)
        case None => None
        case Some(p) => Some((p.0, p.1 + [s[last]]))
  }

  function ChunkId(path: string, start: nat, end: nat): string {
    path + ":" + Decimal(start) + "-" + Decimal(end)
  }

  function ParseChunkId(id: string): Option<Location> {
    match SplitLast(id, ':')
    case None => None
    case Some(outer) =>
      match SplitFirst(outer.1, '-')
      case None => None
      case Some(inner) =>
        match (ParseI64(inner.0), ParseI64(inner.1))
        case (Some(s), Some(e)) => Some(Location(outer.0, s, e))
        case _ => None
  }

  lemma {:induction false} DecimalRoundTrip(n: nat)
    ensures Decimal(n) != []
    ensures forall c :: c in Decimal(n) ==> IsDigit(c)
    ensures Value(Decimal(n)) == n
  {
    if n >= 10 {
      DecimalRoundTrip(n / 10);
      var s := Decimal(n);
      assert s[..|s| - 1] == Decimal(n / 10);
    } else {
      assert Decimal(n)[..0] == [];
    }
  }

  /** Counting: the last digit goes up, and after a 9 it starts again while the rest goes up. */
  lemma DecimalCounts(m: nat, d: nat)
    requires d < 10
    ensures Decimal(10 * m + d) == (if m == 0 then [] else Decimal(m)) + ["0123456789"[d]]
    ensures Decimal(10 * m + 9 + 1) == Decimal(m + 1) + "0"
  {
    assert "0123456789"[d] == Digit(d) by {
      assert forall k: nat :: k < 10 ==> "0123456789"[k] as int == '0' as int + k;
    }
  }

  lemma ParseI64Decimal(n: nat)
    ensures ParseI64(Decimal(n)) == if n <= I64_MAX then Some(n) else None
  {
    DecimalRoundTrip(n);
    assert IsDigit(Decimal(n)[0]);
  }

  /** Signs are read, and numbers that do not fit are refused. */
  lemma ParseI64Signed(n: nat)
    ensures ParseI64("-" + Decimal(n)) == if n <= 0x8000_0000_0000_0000 then Some(-(n as int)) else None
    ensures ParseI64("+" + Decimal(n)) == if n < 0x8000_0000_0000_0000 then Some(n) else None
  {
    DecimalRoundTrip(n);
    hide Decimal;
    assert ("-" + Decimal(n))[1..] == Decimal(n) && ("+" + Decimal(n))[1..] == Decimal(n);
  }

  /** Texts without digits, or with a character that is neither a digit nor a leading sign, are refused. */
  lemma ParseI64Refuses(text: string, i: nat)
    requires text in {"", "-", "+"} || (i < |text| && !('0' <= text[i] <= '9') && (i > 0 || (text[0] != '-' && text[0] != '+')))
    ensures ParseI64(text).None?
  {
    if text !in {"", "-", "+"} {
      var digits := if text[0] == '-' || text[0] == '+' then text[1..] else text;
      assert digits[if digits == text then i else i - 1] == text[i];
      assert text[i] in digits && !IsDigit(text[i]);
    }
  }

  lemma {:induction false} SplitFirstAt(a: string, b: string, sep: char)
    requires sep !in a
    ensures SplitFirst(a + [sep] + b, sep) == Some((a, b))
  {
    var s := a + [sep] + b;
    if a == [] {
      assert s[1..] == b;
    } else {
      assert s[1..] == a[1..] + [sep] + b;
      SplitFirstAt(a[1..], b, sep);
      assert [s[0]] + a[1..] == a;
    }
  }

  lemma {:induction false} SplitLastAt(a: string, b: string, sep: char)
    requires sep !in b
    ensures SplitLast(a + [sep] + b, sep) == Some((a, b))
  {
    var s := a + [sep] + b;
    if b == [] {
      assert s[..|s| - 1] == a;
    } else {
      assert s[..|s| - 1] == a + [sep] + b[..|b| - 1];
      SplitLastAt(a, b[..|b| - 1], sep);
      assert b[..|b| - 1] + [s[|s| - 1]] == b;
    }
  }

  /** The two splits the parser makes recover the three parts of an id, whatever characters
      the path holds. */
  lemma SplitsOfChunkId(path: string, start: nat, end: nat)
    ensures SplitLast(ChunkId(path, start, end), ':') == Some((path, Decimal(start) + "-" + Decimal(end)))
    ensures SplitFirst(Decimal(start) + "-" + Decimal(end), '-') == Some((Decimal(start), Decimal(end)))
  {
    DecimalRoundTrip(start);
    DecimalRoundTrip(end);
    var range := Decimal(start) + "-" + Decimal(end);
    assert ChunkId(path, start, end) == path + [':'] + range;
    SplitLastAt(path, range, ':');
    SplitFirstAt(Decimal(start), Decimal(end), '-');
  }

  /** Reading back a written id gives its parts exactly when both line numbers fit an `i64`;
      otherwise the id is reported as unparseable. */
  lemma ParseOfChunkId(path: string, start: nat, end: nat)
    ensures ParseChunkId(ChunkId(path, start, end)) ==
            if start <= I64_MAX && end <= I64_MAX then Some(Location(path, start, end)) else None
  {
    SplitsOfChunkId(path, start, end);
    ParseI64Decimal(start);
    ParseI64Decimal(end);
  }

  /** Ids of different chunks differ, even across files whose paths contain `:` or `-`. */
  lemma ChunkIdInjective(p: string, s: nat, e: nat, p': string, s': nat, e': nat)
    requires ChunkId(p, s, e) == ChunkId(p', s', e')
    ensures p == p' && s == s' && e == e'
  {
    SplitsOfChunkId(p, s, e);
    SplitsOfChunkId(p', s', e');
    DecimalRoundTrip(s);
    DecimalRoundTrip(s');
    DecimalRoundTrip(e);
    DecimalRoundTrip(e');
  }
}
