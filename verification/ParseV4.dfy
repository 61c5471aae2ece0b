/** The one-pass parser of IPv4 addresses and blocks, its grammar and the printer. */
module ParseV4 {
  import opened Bits
  import opened Cidr
  import opened Outcomes
  import opened Targets

  const DOT: Byte := 46
  const SLASH: Byte := 47

  type Text = seq<Byte>

  // ----- grammar -----------------------------------------------------------------------

  predicate Digit(b: Byte) { 48 <= b <= 57 }

  predicate Digits(s: Text) { forall i :: 0 <= i < |s| ==> Digit(s[i]) }

  /** The decimal value of a digit string. */
  function Number(s: Text): nat
    requires Digits(s)
  {
    if s == [] then 0 else 10 * Number(s[..|s| - 1]) + (s[|s| - 1] - 48)
  }

  predicate Octet(s: Text) { 1 <= |s| <= 3 && Digits(s) && Number(s) <= 255 }

  predicate Padded(s: Text) { |s| > 1 && s[0] == 48 }

  /** Octets of an address, written with dots between them. */
  datatype Address = Address(a: Text, b: Text, c: Text, d: Text) {
    predicate Valid() { Octet(a) && Octet(b) && Octet(c) && Octet(d) }

    predicate AnyPadded() { Padded(a) || Padded(b) || Padded(c) || Padded(d) }

    function Written(): Text { a + [DOT] + (b + [DOT] + (c + [DOT] + d)) }

    function Values(): (v: seq<Byte>)
      requires Valid()
      ensures |v| == 4
    {
      [Number(a), Number(b), Number(c), Number(d)]
    }
  }

  predicate Prefix(s: Text) { 1 <= |s| <= 2 && Digits(s) && Number(s) <= 32 }

  /** A host without zero padding, or a block with any, stands for its target. */
  ghost predicate Means(s: Text, t: Target) {
    || (exists x: Address :: x.Valid() && !x.AnyPadded() && s == x.Written() && t == Exact(V4, x.Values()))
    || (exists x: Address, p: Text :: x.Valid() && Prefix(p) && s == x.Written() + [SLASH] + p
                                      && t == TargetOfNet(V4, Net(FromBe(x.Values()), Number(p))))
  }

  // ----- scanning ----------------------------------------------------------------------

  function Run(s: Text): (n: nat)
    ensures n <= |s| && Digits(s[..n]) && (n < |s| ==> !Digit(s[n]))
  {
    if s == [] || !Digit(s[0]) then 0 else
    var n := 1 + Run(s[1..]);
    assert s[..n] == [s[0]] + s[1..][..n - 1];
    n
  }

  /** The longest digit run is the only one a text can be split at. */
  lemma RunUnique(s: Text, n: nat)
    requires n <= |s| && Digits(s[..n]) && (n < |s| ==> !Digit(s[n]))
    ensures Run(s) == n
  {
    var m := Run(s);
    assert forall i :: 0 <= i < m ==> s[..m][i] == s[i];
    assert forall i :: 0 <= i < n ==> s[..n][i] == s[i];
  }

  datatype Scan = Scan(values: seq<Byte>, padded: bool, rest: Text)

  /** Octets still to come, those read so far and whether one of them was padded. */
  function ScanFrom(s: Text, k: nat, values: seq<Byte>, padded: bool): Option<Scan> {
    if k == 0 then Some(Scan(values, padded, s)) else
    var n := Run(s);
    if !Octet(s[..n]) then None else
    var values', padded' := values + [Number(s[..n])], padded || Padded(s[..n]);
    if k == 1 then Some(Scan(values', padded', s[n..]))
    else if n == |s| || s[n] != DOT then None
    else ScanFrom(s[n + 1..], k - 1, values', padded')
  }

  /** The parser, as a function. */
  function Parse(s: Text): Option<Target> {
    match ScanFrom(s, 4, [], false)
    case None => None
    case Some(Scan(values, padded, rest)) =>
      if rest == [] then (if padded then None else Some(Exact(V4, values)))
      else if rest[0] != SLASH || !Prefix(rest[1..]) then None
      else Some(TargetOfNet(V4, Net(FromBe(values), Number(rest[1..]))))
  }

  // ----- the grammar is what is accepted -----------------------------------------------

  /** One octet at the front. */
  lemma ScanOne(o: Text, rest: Text)
    requires Octet(o) && (rest != [] ==> !Digit(rest[0]))
    ensures Run(o + rest) == |o| && (o + rest)[..|o|] == o && (o + rest)[|o|..] == rest
  {
    var s := o + rest;
    assert s[..|o|] == o;
    RunUnique(s, |o|);
  }

  lemma ScanStep(o: Text, tail: Text, k: nat, values: seq<Byte>, padded: bool)
    requires Octet(o) && k > 1
    ensures ScanFrom(o + [DOT] + tail, k, values, padded)
            == ScanFrom(tail, k - 1, values + [Number(o)], padded || Padded(o))
  {
    var s := o + [DOT] + tail;
    ScanOne(o, [DOT] + tail);
    assert s == o + ([DOT] + tail);
    assert s[|o| + 1..] == tail;
  }

  lemma ScanLast(o: Text, rest: Text, values: seq<Byte>, padded: bool)
    requires Octet(o) && (rest != [] ==> !Digit(rest[0]))
    ensures ScanFrom(o + rest, 1, values, padded) == Some(Scan(values + [Number(o)], padded || Padded(o), rest))
  {
    ScanOne(o, rest);
  }

  function With(values: seq<Byte>, o: Text): seq<Byte>
    requires Octet(o)
  {
    values + [Number(o)]
  }

  lemma ScanTwo(o: Text, p: Text, tail: Text, k: nat, values: seq<Byte>, padded: bool)
    requires Octet(o) && Octet(p) && k > 2
    ensures ScanFrom(o + [DOT] + (p + [DOT] + tail), k, values, padded)
            == ScanFrom(tail, k - 2, values + [Number(o)] + [Number(p)], padded || Padded(o) || Padded(p))
  {
    ScanStep(o, p + [DOT] + tail, k, values, padded);
    ScanStep(p, tail, k - 1, With(values, o), padded || Padded(o));
  }

  lemma ScanLastTwo(o: Text, p: Text, rest: Text, k: nat, values: seq<Byte>, padded: bool)
    requires Octet(o) && Octet(p) && k == 2 && (rest != [] ==> !Digit(rest[0]))
    ensures ScanFrom(o + [DOT] + (p + rest), k, values, padded)
            == Some(Scan(values + [Number(o)] + [Number(p)], padded || Padded(o) || Padded(p), rest))
  {
    ScanStep(o, p + rest, k, values, padded);
    ScanLast(p, rest, With(values, o), padded || Padded(o));
  }

  lemma ScanFour(x: Address, tail: Text, rest: Text, k: nat, values: seq<Byte>)
    requires x.Valid() && (rest != [] ==> !Digit(rest[0])) && k == 4 && tail == x.c + [DOT] + (x.d + rest)
    ensures ScanFrom(x.a + [DOT] + (x.b + [DOT] + tail), k, values, false)
            == Some(Scan(values + [Number(x.a)] + [Number(x.b)] + [Number(x.c)] + [Number(x.d)], x.AnyPadded(), rest))
  {
    ScanTwo(x.a, x.b, tail, k, values, false);
    ScanLastTwo(x.c, x.d, rest, k - 2, With(With(values, x.a), x.b), Padded(x.a) || Padded(x.b));
  }

  lemma ScanAll(x: Address, rest: Text, k: nat, values: seq<Byte>)
    requires x.Valid() && (rest != [] ==> !Digit(rest[0])) && k == 4
    ensures ScanFrom(x.Written() + rest, k, values, false) == Some(Scan(values + x.Values(), x.AnyPadded(), rest))
  {
    WrittenWithRest(x, rest);
    ScanFour(x, x.c + [DOT] + (x.d + rest), rest, k, values);
    Joined(values, Number(x.a), Number(x.b), Number(x.c), Number(x.d));
  }

  lemma Joined<T>(s: seq<T>, a: T, b: T, c: T, d: T)
    ensures s + [a] + [b] + [c] + [d] == s + [a, b, c, d]
  {
  }

  lemma WrittenWithRest(x: Address, rest: Text)
    ensures x.Written() + rest == x.a + [DOT] + (x.b + [DOT] + (x.c + [DOT] + (x.d + rest)))
  {
  }

  /** Whatever is written is scanned. */
  lemma ScanWritten(x: Address, rest: Text)
    requires x.Valid() && (rest != [] ==> !Digit(rest[0]))
    ensures ScanFrom(x.Written() + rest, 4, [], false) == Some(Scan(x.Values(), x.AnyPadded(), rest))
  {
    ScanAll(x, rest, 4, []);
    assert [] + x.Values() == x.Values();
  }

  /** The octet at the front of a text that scans. */
  lemma ScannedOne(s: Text, k: nat, values: seq<Byte>, padded: bool) returns (o: Text, tail: Text)
    requires k > 1 && ScanFrom(s, k, values, padded).Some?
    ensures Octet(o) && s == o + [DOT] + tail
    ensures ScanFrom(tail, k - 1, values + [Number(o)], padded || Padded(o)).Some?
  {
    var n := Run(s);
    o, tail := s[..n], s[n + 1..];
  }

  lemma ScannedLast(s: Text, values: seq<Byte>, padded: bool) returns (o: Text, rest: Text)
    requires ScanFrom(s, 1, values, padded).Some?
    ensures Octet(o) && s == o + rest && (rest != [] ==> !Digit(rest[0]))
  {
    var n := Run(s);
    o, rest := s[..n], s[n..];
  }

  /** Whatever is scanned was written. */
  lemma ScannedIsWritten(s: Text, k: nat, values: seq<Byte>, padded: bool) returns (x: Address, rest: Text)
    requires k == 4 && ScanFrom(s, k, values, padded).Some?
    ensures x.Valid() && s == x.Written() + rest && (rest != [] ==> !Digit(rest[0]))
  {
    var a, s3 := ScannedOne(s, k, values, padded);
    var values3, padded3 := values + [Number(a)], padded || Padded(a);
    var b, s2 := ScannedOne(s3, k - 1, values3, padded3);
    var values2, padded2 := values3 + [Number(b)], padded3 || Padded(b);
    var c, s1 := ScannedOne(s2, k - 2, values2, padded2);
    var d;
    d, rest := ScannedLast(s1, values2 + [Number(c)], padded2 || Padded(c));
    x := Address(a, b, c, d);
    WrittenWithRest(x, rest);
  }

  /** The parser accepts exactly the grammar and returns what the text means. */
  lemma ParsesTheGrammar(s: Text, t: Target)
    ensures Parse(s) == Some(t) <==> Means(s, t)
  {
    if Parse(s) == Some(t) {
      var x, rest := ScannedIsWritten(s, 4, [], false);
      ScanWritten(x, rest);
      ParsedMeans(s, t, x, rest);
    }
    if Means(s, t) {
      MeantParses(s, t);
    }
  }

  lemma ParsedMeans(s: Text, t: Target, x: Address, rest: Text)
    requires Parse(s) == Some(t) && x.Valid() && s == x.Written() + rest
    requires ScanFrom(s, 4, [], false) == Some(Scan(x.Values(), x.AnyPadded(), rest))
    ensures Means(s, t)
  {
    if rest == [] {
      assert s == x.Written();
    } else {
      WrittenBlock(x.Written(), rest);
      assert Prefix(rest[1..]);
    }
  }

  lemma WrittenBlock(address: Text, rest: Text)
    requires rest != [] && rest[0] == SLASH
    ensures address + rest == address + [SLASH] + rest[1..]
  {
  }

  lemma HostParses(x: Address)
    requires x.Valid() && !x.AnyPadded()
    ensures Parse(x.Written()) == Some(Exact(V4, x.Values()))
  {
    ScanWritten(x, []);
    assert x.Written() + [] == x.Written();
  }

  lemma BlockParses(x: Address, p: Text)
    requires x.Valid() && Prefix(p)
    ensures Parse(x.Written() + [SLASH] + p) == Some(TargetOfNet(V4, Net(FromBe(x.Values()), Number(p))))
  {
    var rest := [SLASH] + p;
    ScanWritten(x, rest);
    assert x.Written() + rest == x.Written() + [SLASH] + p;
    assert rest[1..] == p;
  }

  lemma MeantParses(s: Text, t: Target)
    requires Means(s, t)
    ensures Parse(s) == Some(t)
  {
    if x: Address :| x.Valid() && !x.AnyPadded() && s == x.Written() && t == Exact(V4, x.Values()) {
      HostParses(x);
    } else {
      var x: Address, p: Text :| x.Valid() && Prefix(p) && s == x.Written() + [SLASH] + p
                                 && t == TargetOfNet(V4, Net(FromBe(x.Values()), Number(p)));
      BlockParses(x, p);
    }
  }

  // ----- what is returned, and the printer ---------------------------------------------

  /** Every parsed target is canonical, and single addresses are hosts. */
  lemma ParsedIsCanonical(s: Text)
    requires Parse(s).Some?
    ensures var t := Parse(s).value; t.Canonical() && t.family == V4 && (t.Cidr? ==> t.prefix < 32)
  {
    var t := Parse(s).value;
    ParsesTheGrammar(s, t);
    if x: Address :| x.Valid() && !x.AnyPadded() && s == x.Written() && t == Exact(V4, x.Values()) {
      ExactIsCanonical(t);
    } else {
      var x: Address, p: Text :| x.Valid() && Prefix(p) && s == x.Written() + [SLASH] + p
                                 && t == TargetOfNet(V4, Net(FromBe(x.Values()), Number(p)));
      BlockIsCanonical(x.Values(), Number(p));
    }
  }

  lemma BlockIsCanonical(o: seq<Byte>, p: nat)
    requires |o| == 4 && p <= V4.Width()
    ensures var t := TargetOfNet(V4, Net(FromBe(o), p)); t.Canonical() && t.family == V4 && (t.Cidr? ==> t.prefix < 32)
  {
    FromBeBound(o);
    TargetOfNetDenotes(V4, Net(FromBe(o), p));
  }

  /** Decimal digits without leading zeros. */
  function Decimal(n: nat): Text {
    if n < 10 then [48 + n] else Decimal(n / 10) + [48 + n % 10]
  }

  lemma {:induction false} DecimalReads(n: nat)
    ensures Digits(Decimal(n)) && Number(Decimal(n)) == n && |Decimal(n)| >= 1 && !Padded(Decimal(n))
    ensures n >= 10 ==> Decimal(n)[0] != 48
  {
    if n >= 10 {
      DecimalReads(n / 10);
      var d := Decimal(n / 10);
      assert Decimal(n)[..|d|] == d;
      assert n / 10 >= 10 || d == [48 + n / 10];
    }
  }

  lemma DecimalLength(n: nat)
    ensures n < 100 ==> |Decimal(n)| <= 2
    ensures n < 1000 ==> |Decimal(n)| <= 3
  {
  }

  function AddressOf(o: seq<Byte>): Address
    requires |o| == 4
  {
    Address(Decimal(o[0]), Decimal(o[1]), Decimal(o[2]), Decimal(o[3]))
  }

  lemma AddressReads(o: seq<Byte>)
    requires |o| == 4
    ensures var x := AddressOf(o); x.Valid() && !x.AnyPadded() && x.Values() == o
  {
    OctetReads(o[0]);
    OctetReads(o[1]);
    OctetReads(o[2]);
    OctetReads(o[3]);
  }

  lemma OctetReads(b: Byte)
    ensures Octet(Decimal(b)) && Number(Decimal(b)) == b && !Padded(Decimal(b))
  {
    DecimalReads(b);
    DecimalLength(b);
  }

  /** `to_string_repr` of IPv4 targets. */
  function Print(t: Target): Text
    requires t.Valid() && t.family == V4
  {
    if t.Exact? then AddressOf(t.octets).Written() else AddressOf(t.octets).Written() + [SLASH] + Decimal(t.prefix)
  }

  /** The parser undoes the printer on every target it can produce. */
  lemma PrintParses(t: Target)
    requires t.Canonical() && t.family == V4 && (t.Cidr? ==> t.prefix < 32)
    ensures Parse(Print(t)) == Some(t)
  {
    var x := AddressOf(t.octets);
    AddressReads(t.octets);
    if t.Exact? {
      HostParses(x);
    } else {
      DecimalReads(t.prefix);
      DecimalLength(t.prefix);
      BlockParses(x, Decimal(t.prefix));
      CanonicalBlock(t);
    }
  }

  lemma CanonicalBlock(t: Target)
    requires t.Canonical() && t.Cidr? && t.prefix < t.family.Width()
    ensures TargetOfNet(t.family, Net(FromBe(t.octets), t.prefix)) == t
  {
    BeRoundTripBytes(t.octets);
  }

  // ----- the parser --------------------------------------------------------------------

  /** The inner loop: one octet at `offset`. */
  method ParseOctet(bytes: Text, start: nat) returns (value: nat, offset: nat, ok: bool)
    requires start <= |bytes|
    ensures ok <==> Octet(bytes[start..][..Run(bytes[start..])])
    ensures ok ==> start < offset <= |bytes| && offset == start + Run(bytes[start..])
    ensures ok ==> Digits(bytes[start..offset]) && value == Number(bytes[start..offset]) <= 255
  {
    value, offset, ok := 0, start, false;
    ghost var run := Run(bytes[start..]);
    while offset < |bytes| && Digit(bytes[offset])
      invariant start <= offset <= |bytes| && offset - start <= 3
      invariant Digits(bytes[start..offset]) && value == Number(bytes[start..offset]) <= 255
    {
      DigitNext(bytes, start, offset);
      value := 10 * value + (bytes[offset] - 48);
      offset := offset + 1;
      if offset - start > 3 || value > 255 {
        TooBig(bytes, start, offset);
        return;
      }
    }
    assert bytes[start..][..offset - start] == bytes[start..offset];
    RunUnique(bytes[start..], offset - start);
    ok := offset > start;
  }

  lemma DigitNext(bytes: Text, start: nat, offset: nat)
    requires start <= offset < |bytes| && Digits(bytes[start..offset]) && Digit(bytes[offset])
    ensures Digits(bytes[start..offset + 1])
    ensures Number(bytes[start..offset + 1]) == 10 * Number(bytes[start..offset]) + (bytes[offset] - 48)
  {
    assert bytes[start..offset + 1][..offset - start] == bytes[start..offset];
  }

  /** A digit run with four digits or a value above 255 in front is no octet. */
  lemma TooBig(bytes: Text, start: nat, offset: nat)
    requires start <= offset <= |bytes| && Digits(bytes[start..offset])
    requires offset - start > 3 || Number(bytes[start..offset]) > 255
    ensures !Octet(bytes[start..][..Run(bytes[start..])])
  {
    var s := bytes[start..];
    var n := Run(s);
    assert forall i :: 0 <= i < offset - start ==> s[i] == bytes[start..offset][i];
    assert n < |s| ==> !Digit(s[n]);
    assert n >= offset - start;
    assert s[..n][..offset - start] == bytes[start..offset];
    NumberGrows(s[..n], offset - start);
  }

  lemma {:induction false} NumberGrows(s: Text, n: nat)
    requires n <= |s| && Digits(s)
    ensures Digits(s[..n]) && Number(s[..n]) <= Number(s)
  {
    if n < |s| {
      NumberGrows(s[..|s| - 1], n);
      assert s[..|s| - 1][..n] == s[..n];
    } else {
      assert s[..n] == s;
    }
  }

  method ParsePrefix(suffix: Text) returns (prefix: nat, ok: bool)
    ensures ok <==> 1 <= |suffix| <= 2 && Digits(suffix)
    ensures ok ==> prefix == Number(suffix)
  {
    prefix, ok := 0, false;
    if |suffix| == 0 || |suffix| > 2 {
      return;
    }
    for i := 0 to |suffix|
      invariant Digits(suffix[..i]) && prefix == Number(suffix[..i])
    {
      if !Digit(suffix[i]) {
        return;
      }
      assert suffix[..i + 1][..i] == suffix[..i];
      prefix := 10 * prefix + (suffix[i] - 48);
    }
    assert suffix[..|suffix|] == suffix;
    ok := true;
  }

  /** What is left to scan at `offset` gives the result of the whole scan. */
  ghost predicate Scanning(whole: Option<Scan>, bytes: Text, offset: nat, k: nat, octets: seq<Byte>, padded: bool) {
    offset <= |bytes| && whole == ScanFrom(bytes[offset..], k, octets, padded)
  }

  lemma DropTake(bytes: Text, start: nat, end: nat)
    requires start <= end <= |bytes|
    ensures bytes[start..][..end - start] == bytes[start..end]
  {
  }

  lemma ScanAhead(whole: Option<Scan>, bytes: Text, start: nat, k: nat, octets: seq<Byte>, padded: bool, offset: nat)
    requires Scanning(whole, bytes, start, k, octets, padded) && k > 0 && start <= offset <= |bytes|
    requires offset == start + Run(bytes[start..]) && Octet(bytes[start..offset])
    ensures var octets', padded' := octets + [Number(bytes[start..offset])], padded || Padded(bytes[start..offset]);
            if k == 1 then Scanning(whole, bytes, offset, 0, octets', padded')
            else if offset == |bytes| || bytes[offset] != DOT then whole.None?
            else Scanning(whole, bytes, offset + 1, k - 1, octets', padded')
  {
    var s, n := bytes[start..], offset - start;
    assert s[..n] == bytes[start..offset];
    assert s[n..] == bytes[offset..];
    assert offset < |bytes| ==> s[n + 1..] == bytes[offset + 1..];
  }

  lemma ScanFails(whole: Option<Scan>, bytes: Text, start: nat, k: nat, octets: seq<Byte>, padded: bool)
    requires Scanning(whole, bytes, start, k, octets, padded) && k > 0
    requires !Octet(bytes[start..][..Run(bytes[start..])])
    ensures whole.None?
  {
  }

  lemma ScanStart(bytes: Text) returns (whole: Option<Scan>)
    ensures whole == ScanFrom(bytes, 4, [], false) && Scanning(whole, bytes, 0, 4, [], false)
  {
    whole := ScanFrom(bytes, 4, [], false);
    assert bytes[0..] == bytes;
  }

  /** One turn of the outer loop, with `k` octets to go. */
  method NextOctet(ghost whole: Option<Scan>, bytes: Text, start: nat, k: nat, octets: seq<Byte>, padded: bool)
    returns (octets': seq<Byte>, padded': bool, offset: nat, ok: bool)
    requires Scanning(whole, bytes, start, k, octets, padded) && k > 0
    ensures ok ==> Scanning(whole, bytes, offset, k - 1, octets', padded') && |octets'| == |octets| + 1
    ensures !ok ==> whole.None?
  {
    var value;
    octets', padded' := octets, padded;
    value, offset, ok := ParseOctet(bytes, start);
    if !ok {
      ScanFails(whole, bytes, start, k, octets, padded);
      return;
    }
    DropTake(bytes, start, offset);
    ScanAhead(whole, bytes, start, k, octets, padded, offset);
    padded' := padded || (offset - start > 1 && bytes[start] == 48);
    octets' := octets + [value];
    if k != 1 {
      ok := offset < |bytes| && bytes[offset] == DOT;
      offset := if ok then offset + 1 else offset;
    }
  }

  /** The outer loop: four octets with dots between them. */
  method ScanAddress(bytes: Text) returns (octets: seq<Byte>, padded: bool, offset: nat, ok: bool)
    ensures ok <==> ScanFrom(bytes, 4, [], false).Some?
    ensures ok ==> offset <= |bytes| && |octets| == 4
                   && ScanFrom(bytes, 4, [], false) == Some(Scan(octets, padded, bytes[offset..]))
  {
    octets, padded, offset, ok := [], false, 0, true;
    ghost var whole := ScanStart(bytes);
    for index := 0 to 4
      invariant Scanning(whole, bytes, offset, 4 - index, octets, padded) && |octets| == index && ok
    {
      octets, padded, offset, ok := NextOctet(whole, bytes, offset, 4 - index, octets, padded);
      if !ok {
        return;
      }
    }
  }

  /** `parse_ipv4_target`. */
  method ParseIpv4Target(bytes: Text) returns (r: Option<Target>)
    ensures r == Parse(bytes)
  {
    var octets, padded, offset, ok := ScanAddress(bytes);
    if !ok {
      return None;
    }
    if offset == |bytes| {
      return if padded then None else Some(Exact(V4, octets));
    }
    if bytes[offset] != SLASH {
      return None;
    }
    var suffix := bytes[offset + 1..];
    assert bytes[offset..][1..] == suffix;
    var prefix;
    prefix, ok := ParsePrefix(suffix);
    if !ok || prefix > 32 {
      return None;
    }
    if prefix == 32 {
      FullLength(octets, prefix);
      r := Some(Exact(V4, octets));
    } else {
      var network := BitAnd(FromBe(octets), PrefixMask(V4.Width(), prefix));
      r := Some(Cidr(V4, prefix, ToBe(network, 4)));
    }
  }

  lemma FullLength(o: seq<Byte>, prefix: nat)
    requires |o| == 4 && prefix == V4.Width()
    ensures TargetOfNet(V4, Net(FromBe(o), prefix)) == Exact(V4, o)
  {
    BeRoundTripBytes(o);
  }
}
