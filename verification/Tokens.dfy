/** Reference tokens of a policy: their kind, their IPv4 range and their port specification. */
module Tokens {
  import opened Text

  datatype TokenKind = Wildcard | Group | Tag | Autogroup | Host | Cidr | User | Literal

  /** A destination token split into its reference and its optional port spec. */
  datatype DstParts = DstParts(host: string, ports: Option<string>)

  datatype Prefix = Prefix(base: nat, bits: nat)

  /** A 32-bit network base with no address bit below its prefix length. */
  type Ipv4Range = r: Prefix | IsNetwork(r) witness Prefix(0, 0)

  // ------------------------------------------------------------- port suffixes

  predicate IsPortPart(part: string) {
    || part == "*"
    || AllDigits(part)
    || (match IndexOf(part, '-')
        case None => false
        case Some(i) => AllDigits(part[..i]) && AllDigits(part[i + 1..]))
  }

  /** A comma-separated list of `*`, `n` and `n-m`. */
  predicate IsPortSpec(spec: string) {
    forall p | p in Split(spec, ',') :: IsPortPart(p)
  }

  function SplitDstPorts(token: string): DstParts {
    match LastIndexOf(token, ':')
    case None => DstParts(token, None)
    case Some(i) =>
      if i > 0 && IsPortSpec(token[i + 1..]) then DstParts(token[..i], Some(token[i + 1..]))
      else DstParts(token, None)
  }

  /** A port spec holds no colon, so the last colon of a token is where it starts. */
  lemma PortSpecHasNoColon(spec: string)
    requires IsPortSpec(spec)
    ensures ':' !in spec
  {
    JoinSplit(spec, ',');
    NoColonInJoin(Split(spec, ','));
  }

  lemma {:induction false} NoColonInJoin(parts: seq<string>)
    requires |parts| >= 1 && forall p | p in parts :: IsPortPart(p)
    ensures ':' !in Join(parts, ',')
  {
    assert ':' !in parts[0] by { NoColonInPart(parts[0]); }
    if |parts| > 1 {
      NoColonInJoin(parts[1..]);
    }
  }

  lemma NoColonInPart(part: string)
    requires IsPortPart(part)
    ensures ':' !in part
  {
    match IndexOf(part, '-')
    case None =>
    case Some(i) => assert part == part[..i] + [part[i]] + part[i + 1..];
  }

  /**
   * Peeling is exact. A reference written with a port spec comes apart into those two
   * pieces; whatever comes out writes back to the token; and a token is left whole
   * exactly when no reference followed by a port spec spells it.
   */
  lemma SplitDstPortsExact(token: string)
    ensures var r := SplitDstPorts(token);
            match r.ports
            case Some(ports) => r.host != "" && IsPortSpec(ports) && token == r.host + ":" + ports
            case None =>
              && r.host == token
              && forall h, p | h != "" && IsPortSpec(p) :: token != h + ":" + p
    ensures forall h, p | h != "" && IsPortSpec(p) && token == h + ":" + p ::
              SplitDstPorts(token) == DstParts(h, Some(p))
  {
    match LastIndexOf(token, ':') {
      case None =>
      case Some(i) => assert token == token[..i] + ":" + token[i + 1..];
    }
    forall h, p | h != "" && IsPortSpec(p) && token == h + ":" + p
      ensures SplitDstPorts(token) == DstParts(h, Some(p))
    {
      PortSpecHasNoColon(p);
      assert token[|h|] == ':' && token[|h| + 1..] == p && token[..|h|] == h;
      var i := LastIndexOf(token, ':').value;
      LastColonAt(token, i, |h|);
    }
  }

  lemma LastColonAt(token: string, i: nat, j: nat)
    requires i < |token| && j < |token| && token[i] == ':' && token[j] == ':'
    requires ':' !in token[i + 1..] && ':' !in token[j + 1..]
    ensures i == j
  {
    assert forall k | i < k < |token| :: token[k] == token[i + 1..][k - i - 1];
    assert forall k | j < k < |token| :: token[k] == token[j + 1..][k - j - 1];
  }

  /** Of what an IPv6 literal is made of only digits spell ports. */
  lemma HexPortSpec(tail: string)
    requires ',' !in tail && '*' !in tail && '-' !in tail
    ensures IsPortSpec(tail) <==> AllDigits(tail)
  {
    SplitWhole(tail, ',');
    assert tail in Split(tail, ',');
    assert '*' in "*";
  }

  lemma {:induction false} SplitWhole(s: string, sep: char)
    requires sep !in s
    ensures Split(s, sep) == [s]
  {
    if s != "" {
      SplitWhole(s[1..], sep);
      assert s[0] in s && s == [s[0]] + s[1..];
    }
  }

  /** An IPv6 literal stays whole exactly when its last group is not all decimal digits. */
  lemma {:induction false} Ipv6StaysWhole(addr: string)
    requires LooksLikeIpv6(addr)
    ensures var i := LastIndexOf(addr, ':').value;
            SplitDstPorts(addr).ports.None? <==> i == 0 || !AllDigits(addr[i + 1..])
  {
    var i := LastIndexOf(addr, ':').value;
    var tail := addr[i + 1..];
    forall c | c in tail ensures c in addr && c != ',' && c != '*' && c != '-' { }
    HexPortSpec(tail);
  }

  /** The last group of an address, taken for a port. */
  lemma Ipv6LosesItsEnd()
    ensures LooksLikeIpv6("fd7a:115c:a1e0::1")
    ensures SplitDstPorts("fd7a:115c:a1e0::1") == DstParts("fd7a:115c:a1e0:", Some("1"))
  {
    EndsInGroup("fd7a:115c:a1e0:", "1");
    var host := "fd7a:115c:a1e0:";
    assert host[4] == ':';
    assert "fd7a:115c:a1e0::1" == host + ":" + "1";
  }

  lemma EndsInGroup(host: string, group: string)
    requires host != "" && AllDigits(group)
    ensures SplitDstPorts(host + ":" + group) == DstParts(host, Some(group))
  {
    HexPortSpec(group);
    SplitDstPortsExact(host + ":" + group);
  }

  // ---------------------------------------------------------------- port matching

  /** What `Number(text)` yields; finite values are kept exactly. */
  datatype Numeric = NotANumber | Infinite | Finite(value: real)

  function RadixDigit(c: char): Option<nat> {
    if IsDigit(c) then Some(c as int - '0' as int)
    else if 'a' <= c <= 'f' then Some(c as int - 'a' as int + 10)
    else if 'A' <= c <= 'F' then Some(c as int - 'A' as int + 10)
    else None
  }

  predicate AllRadix(s: string, radix: nat) {
    s != "" && forall c | c in s :: RadixDigit(c).Some? && RadixDigit(c).value < radix
  }

  function RadixValue(s: string, radix: nat): nat
    requires s == "" || AllRadix(s, radix)
  {
    if s == "" then 0
    else
      assert s[|s| - 1] in s;
      radix * RadixValue(s[..|s| - 1], radix) + RadixDigit(s[|s| - 1]).value
  }

  function Pow10(k: nat): (p: nat)
    ensures p >= 1
  {
    if k == 0 then 1 else 10 * Pow10(k - 1)
  }

  predicate NoneOrDigits(s: string) {
    s == "" || AllDigits(s)
  }

  /** Digits with at most one point among them. */
  function MantissaOf(s: string): Option<real> {
    match IndexOf(s, '.')
    case None => if AllDigits(s) then Some(DecimalValue(s) as real) else None
    case Some(i) =>
      var whole, fraction := s[..i], s[i + 1..];
      if !NoneOrDigits(whole) || !NoneOrDigits(fraction) || |s| == 1 then None
      else Some(DecimalValue(whole) as real + DecimalValue(fraction) as real / Pow10(|fraction|) as real)
  }

  function AfterPlus(s: string): string {
    if StartsWith(s, "+") then s[1..] else s
  }

  function DecimalOf(s: string): Numeric {
    if s == "Infinity" then Infinite
    else
      match IndexOf(ToLower(s), 'e')
      case None =>
        var value := MantissaOf(s);
        if value.None? then NotANumber else Finite(value.value)
      case Some(i) =>
        var value, exponent := MantissaOf(s[..i]), AfterPlus(s[i + 1..]);
        if value.None? || !AllDigits(exponent) then NotANumber
        else Finite(value.value * Pow10(DecimalValue(exponent)) as real)
  }

  function RadixOf(s: string, radix: nat): Numeric {
    if AllRadix(s, radix) then Finite(RadixValue(s, radix) as real) else NotANumber
  }

  /** `Number(text)` for a text without a minus sign, which no bound of a range holds. */
  function NumberOf(text: string): Numeric {
    var t := Trim(text);
    var prefix := if |t| >= 2 then ToLower(t[..2]) else "";
    if t == "" then Finite(0.0)
    else if prefix == "0x" then RadixOf(t[2..], 16)
    else if prefix == "0o" then RadixOf(t[2..], 8)
    else if prefix == "0b" then RadixOf(t[2..], 2)
    else DecimalOf(AfterPlus(t))
  }

  predicate AtMost(port: int, bound: Numeric) {
    match bound
    case NotANumber => false
    case Infinite => true
    case Finite(value) => port as real <= value
  }

  function LowText(part: string): string {
    Split(part, '-')[0]
  }

  function HighText(part: string): string {
    var bounds := Split(part, '-');
    if |bounds| == 1 then bounds[0] else bounds[1]
  }

  /** One comma-separated part of a port spec admits the port. */
  predicate PartAdmits(part: string, port: int) {
    || part == "*"
    || (&& NumberOf(LowText(part)).Finite?
        && NumberOf(LowText(part)).value <= port as real
        && AtMost(port, NumberOf(HighText(part))))
  }

  /** No question about ports, no restriction on them, or some part that admits the port. */
  predicate PortAdmitted(spec: Option<string>, port: Option<int>) {
    || port.None?
    || spec.None?
    || exists part | part in Split(spec.value, ',') :: PartAdmits(part, port.value)
  }

  lemma StarSplits()
    ensures Split("*", ',') == ["*"]
  {
    assert Split("*"[1..], ',') == [""];
    assert ['*'] + "" == "*";
  }

  method PortMatches(spec: Option<string>, port: Option<int>) returns (ok: bool)
    ensures ok <==> PortAdmitted(spec, port)
  {
    if port.None? { return true; }
    if spec.None? { return true; }
    if spec.value == "*" {
      StarSplits();
      assert "*" in Split(spec.value, ',');
      return true;
    }
    var parts := Split(spec.value, ',');
    for k := 0 to |parts|
      invariant forall j | 0 <= j < k :: !PartAdmits(parts[j], port.value)
    {
      var part := parts[k];
      assert part in parts;
      if part == "*" { return true; }
      var bounds := Split(part, '-');
      var low := NumberOf(bounds[0]);
      var high := if |bounds| == 1 then low else NumberOf(bounds[1]);
      if low.Finite? && port.value as real >= low.value && AtMost(port.value, high) {
        return true;
      }
    }
    return false;
  }

  lemma DigitsTrimmed(s: string)
    requires AllDigits(s)
    ensures Trim(s) == s
  {
    assert IsDigit(s[0]) && IsDigit(s[|s| - 1]);
  }

  lemma DigitsStayLow(s: string)
    requires forall c | c in s :: IsDigit(c)
    ensures ToLower(s) == s
  {
    forall i | 0 <= i < |s| ensures ToLower(s)[i] == s[i] { assert s[i] in s; }
  }

  lemma {:induction false} DigitsAreNumber(s: string)
    requires AllDigits(s)
    ensures NumberOf(s) == Finite(DecimalValue(s) as real)
  {
    DigitsTrimmed(s);
    DigitsStayLow(s);
    assert IsDigit(s[0]);
    assert '.' !in s && 'e' !in s;
    if |s| >= 2 {
      assert s[1] in s && forall c | c in s[..2] :: c in s;
      DigitsStayLow(s[..2]);
    }
    assert AfterPlus(s) == s && s != "Infinity" by { assert "Infinity"[0] == 'I'; }
  }

  lemma {:induction false} SplitOnce(s: string, sep: char, i: nat)
    requires i < |s| && s[i] == sep && sep !in s[..i] && sep !in s[i + 1..]
    ensures Split(s, sep) == [s[..i], s[i + 1..]]
  {
    if i == 0 {
      SplitWhole(s[1..], sep);
    } else {
      assert s[0] == s[..i][0] && s[1..][..i - 1] == s[..i][1..] && s[1..][i..] == s[i + 1..];
      SplitOnce(s[1..], sep, i - 1);
      assert [s[0]] + s[1..][..i - 1] == s[..i];
    }
  }

  /** Of the parts a port spec is made of, `*` admits every port, `n` that port, `n-m` those between. */
  lemma {:induction false} PortPartMeaning(part: string, port: int)
    requires IsPortPart(part)
    ensures PartAdmits(part, port) <==>
            || part == "*"
            || (AllDigits(part) && port == DecimalValue(part))
            || (exists lo, hi | AllDigits(lo) && AllDigits(hi) && part == lo + "-" + hi ::
                  DecimalValue(lo) <= port <= DecimalValue(hi))
  {
    if part != "*" {
      match IndexOf(part, '-') {
        case None =>
          SplitWhole(part, '-');
          DigitsAreNumber(part);
        case Some(i) =>
          assert part[i] in part && !AllDigits(part);
          RangePartMeaning(part, i, port);
      }
    }
  }

  lemma RangePartMeaning(part: string, i: nat, port: int)
    requires i < |part| && part[i] == '-' && AllDigits(part[..i]) && AllDigits(part[i + 1..])
    ensures part != "*" && !AllDigits(part)
    ensures PartAdmits(part, port) <==>
            exists lo, hi | AllDigits(lo) && AllDigits(hi) && part == lo + "-" + hi ::
              DecimalValue(lo) <= port <= DecimalValue(hi)
  {
    var lo, hi := part[..i], part[i + 1..];
    assert part[i] in part && !IsDigit(part[i]);
    assert part == lo + "-" + hi;
    SplitOnce(part, '-', i);
    DigitsAreNumber(lo);
    DigitsAreNumber(hi);
    forall lo', hi' | AllDigits(lo') && AllDigits(hi') && part == lo' + "-" + hi' ensures lo' == lo && hi' == hi {
      assert Split(part, '-') == [lo', hi'] by {
        assert part[|lo'|] == '-' && part[..|lo'|] == lo' && part[|lo'| + 1..] == hi';
        SplitOnce(part, '-', |lo'|);
      }
    }
  }

  // --------------------------------------------------------------------- IPv4

  predicate IsOctetText(part: string) {
    AllDigits(part) && |part| <= 3 && DecimalValue(part) <= 255
  }

  /** The dotted quad read as a base-256 number. */
  function QuadValue(parts: seq<string>): (value: nat)
    requires forall p | p in parts :: IsOctetText(p)
    decreases |parts|
  {
    if parts == [] then 0
    else
      var init := parts[..|parts| - 1];
      assert forall p | p in init :: p in parts;
      assert IsOctetText(parts[|parts| - 1]);
      256 * QuadValue(init) + DecimalValue(parts[|parts| - 1])
  }

  predicate IsQuad(addr: string) {
    var parts := Split(addr, '.');
    |parts| == 4 && forall p | p in parts :: IsOctetText(p)
  }

  lemma {:induction false} QuadFits(addr: string)
    requires IsQuad(addr)
    ensures QuadValue(Split(addr, '.')) < 0x1_0000_0000
  {
    QuadBound(Split(addr, '.'), 0x1_0000_0000);
  }

  lemma {:induction false} QuadBound(parts: seq<string>, bound: nat)
    requires forall p | p in parts :: IsOctetText(p)
    requires |parts| <= 4
    requires bound == [1, 0x100, 0x1_0000, 0x100_0000, 0x1_0000_0000][|parts|]
    ensures QuadValue(parts) < bound
  {
    if parts != [] {
      var init := parts[..|parts| - 1];
      assert forall p | p in init :: p in parts;
      assert IsOctetText(parts[|parts| - 1]);
      QuadBound(init, bound / 256);
    }
  }

  function Ipv4ValueOf(addr: string): (r: Option<nat>)
    ensures r.Some? ==> r.value < 0x1_0000_0000
  {
    if IsQuad(addr) then QuadFits(addr); Some(QuadValue(Split(addr, '.'))) else None
  }

  method ParseIpv4(addr: string) returns (r: Option<nat>)
    ensures r.Some? <==> IsQuad(addr)
    ensures r.Some? ==> r.value == QuadValue(Split(addr, '.')) && r.value < 0x1_0000_0000
  {
    var parts := Split(addr, '.');
    if |parts| != 4 { return None; }
    var value := 0;
    for k := 0 to 4
      invariant forall p | p in parts[..k] :: IsOctetText(p)
      invariant value == QuadValue(parts[..k])
    {
      var part := parts[k];
      assert part in parts;
      if !AllDigits(part) || |part| > 3 { return None; }
      var n := DecimalValue(part);
      if n > 255 { return None; }
      assert parts[..k + 1] == parts[..k] + [part];
      assert parts[..k + 1][..k] == parts[..k];
      value := value * 256 + n;
    }
    assert parts[..4] == parts;
    QuadFits(addr);
    return Some(value);
  }

  function Pow2(k: nat): (p: nat)
    ensures p >= 1
  {
    if k == 0 then 1 else 2 * Pow2(k - 1)
  }

  const WORD: nat := 0x1_0000_0000

  /** `x & y` on unsigned words. */
  function And(x: nat, y: nat): nat {
    if x == 0 then 0 else 2 * And(x / 2, y / 2) + (x % 2) * (y % 2)
  }

  /** `(x << count) >>> 0`: the shift count is taken modulo 32, the result modulo 2^32. */
  function ShiftLeft(x: nat, count: nat): nat {
    x * Pow2(count % 32) % WORD
  }

  function Mask(bits: nat): nat
    requires bits <= 32
  {
    if bits == 0 then 0 else ShiftLeft(0xFFFF_FFFF, 32 - bits)
  }

  function ParseIpv4Range(token: string): Option<Ipv4Range> {
    var parts := Split(token, '/');
    match Ipv4ValueOf(parts[0])
    case None => None
    case Some(ip) =>
      if |parts| == 1 then Some(NetworkOf(ip, 32))
      else if !AllDigits(parts[1]) || |parts[1]| > 2 || DecimalValue(parts[1]) > 32 then None
      else Some(NetworkOf(ip, DecimalValue(parts[1])))
  }

  function NetworkOf(ip: nat, bits: nat): Ipv4Range
    requires ip < WORD && bits <= 32
  {
    MaskedIsNetwork(ip, bits);
    Prefix(And(ip, Mask(bits)), bits)
  }

  predicate RangesOverlap(a: Ipv4Range, b: Ipv4Range)
  {
    var bits := if a.bits <= b.bits then a.bits else b.bits;
    And(a.base, Mask(bits)) == And(b.base, Mask(bits))
  }

  /** The address lies in the prefix: it starts with the network's bits. */
  predicate InRange(address: nat, r: Ipv4Range)
  {
    address < WORD && address / Pow2(32 - r.bits) == r.base / Pow2(32 - r.bits)
  }

  predicate IsNetwork(r: Prefix) {
    r.bits <= 32 && r.base < WORD && r.base % Pow2(32 - r.bits) == 0
  }

  lemma HalveMod(x: nat, m: nat)
    requires m >= 1
    ensures x % (2 * m) == 2 * (x / 2 % m) + x % 2
  {
    var q, r := x / 2 / m, x / 2 % m;
    assert x == 2 * m * q + (2 * r + x % 2);
    ModUnique(x, 2 * m, q, 2 * r + x % 2);
  }

  lemma ModUnique(x: nat, m: nat, q: int, r: nat)
    requires x == m * q + r && r < m
    ensures x / m == q && x % m == r
  {
    var d := x / m - q;
    assert m * d == r - x % m;
    assert d >= 1 ==> m * d >= m;
    assert d <= -1 ==> m * d <= 0 - m;
  }

  lemma {:induction false} AndAllOnes(x: nat, width: nat)
    requires x < Pow2(width)
    ensures And(x, Pow2(width) - 1) == x
  {
    if width > 0 {
      AndAllOnes(x / 2, width - 1);
      assert (Pow2(width) - 1) / 2 == Pow2(width - 1) - 1 && (Pow2(width) - 1) % 2 == 1;
    }
  }

  /** A run of ones above k zeros keeps exactly the bits from k up. */
  lemma {:induction false} AndOnes(x: nat, width: nat, k: nat)
    requires k <= width && x < Pow2(width) && Pow2(k) <= Pow2(width)
    ensures And(x, Pow2(width) - Pow2(k)) == x - x % Pow2(k)
    decreases width
  {
    if k == 0 {
      AndAllOnes(x, width);
    } else {
      var ones := Pow2(width - 1) - Pow2(k - 1);
      AndOnes(x / 2, width - 1, k - 1);
      HalveMod(x, Pow2(k - 1));
      assert Pow2(width) - Pow2(k) == 2 * ones;
      AndEven(x, ones);
    }
  }

  lemma {:induction false} AndEven(x: nat, y: nat)
    ensures And(x, 2 * y) == 2 * And(x / 2, y)
  {
    assert (2 * y) / 2 == y && (2 * y) % 2 == 0;
    if x > 0 { assert (x % 2) * ((2 * y) % 2) == 0; }
  }

  lemma Pow2Word()
    ensures Pow2(32) == WORD
  {
    assert Pow2(8) == 0x100;
    assert Pow2(16) == 0x1_0000;
    assert Pow2(24) == 0x100_0000;
  }

  lemma ShiftedOnes(p: nat)
    requires 1 <= p <= WORD
    ensures 0xFFFF_FFFF * p % WORD == WORD - p
  {
    ModUnique(0xFFFF_FFFF * p, WORD, p - 1, WORD - p);
  }

  lemma ClearedMod(x: nat, m: nat)
    requires m >= 1
    ensures 0 <= x - x % m && (x - x % m) % m == 0
  {
    ModUnique(x - x % m, m, x / m, 0);
  }

  lemma {:induction false} ShiftIsOnes(k: nat)
    requires k < 32
    ensures Pow2(k) <= WORD && ShiftLeft(0xFFFF_FFFF, k) == WORD - Pow2(k)
  {
    Pow2Below(k, 32);
    Pow2Word();
    var p := Pow2(k);
    ShiftedOnes(p);
    SmallMod(k, 32);
    assert ShiftLeft(0xFFFF_FFFF, k) == 0xFFFF_FFFF * p % WORD;
  }

  lemma SmallMod(k: nat, m: nat)
    requires k < m
    ensures k % m == k
  { }

  lemma {:induction false} MaskIsOnes(bits: nat)
    requires 1 <= bits <= 32
    ensures Pow2(32 - bits) <= WORD && Mask(bits) == WORD - Pow2(32 - bits)
  {
    ShiftIsOnes(32 - bits);
  }

  /** Masking clears the low bits; the guard on a zero length is what makes /0 work. */
  lemma {:induction false} MaskClears(x: nat, bits: nat)
    requires bits <= 32 && x < WORD
    ensures And(x, Mask(bits)) == x - x % Pow2(32 - bits)
  {
    Pow2Word();
    if bits == 0 {
      AndZero(x);
    } else {
      MaskIsOnes(bits);
      AndOnesIn32(x, 32 - bits, Mask(bits));
    }
  }

  lemma {:induction false} AndOnesIn32(x: nat, k: nat, ones: nat)
    requires k <= 32 && x < WORD && ones + Pow2(k) == WORD
    ensures And(x, ones) == x - x % Pow2(k)
  {
    Pow2Word();
    AndOnes(x, 32, k);
  }

  lemma {:induction false} Pow2Below(j: nat, k: nat)
    requires j <= k
    ensures Pow2(j) <= Pow2(k)
    decreases k
  {
    if j < k { Pow2Below(j, k - 1); }
  }

  lemma {:induction false} AndZero(x: nat)
    ensures And(x, 0) == 0
  {
    if x > 0 { AndZero(x / 2); }
  }

  lemma {:induction false} MaskedIsNetwork(ip: nat, bits: nat)
    requires ip < WORD && bits <= 32
    ensures IsNetwork(Prefix(And(ip, Mask(bits)), bits))
  {
    MaskClears(ip, bits);
    ClearedMod(ip, Pow2(32 - bits));
  }

  /** The parser's network holds the parsed address, and no shorter description of it. */
  lemma ParsedHoldsAddress(ip: nat, bits: nat)
    requires ip < WORD && bits <= 32
    ensures InRange(ip, NetworkOf(ip, bits)) && NetworkOf(ip, bits).bits == bits
  {
    MaskClears(ip, bits);
    SameQuotient(ip, ip - ip % Pow2(32 - bits), Pow2(32 - bits));
    ClearedMod(ip, Pow2(32 - bits));
  }

  function MaskText(token: string): Option<string> {
    var parts := Split(token, '/');
    if |parts| == 1 then None else Some(parts[1])
  }

  predicate IsMask(mask: Option<string>) {
    mask.None? || (AllDigits(mask.value) && |mask.value| <= 2 && DecimalValue(mask.value) <= 32)
  }

  /** What a token is read as: a range exactly for a quad with a sound prefix length, and then the range
      of the addresses that begin with that many bits of the quad. */
  lemma {:induction false} RangeOfToken(token: string)
    ensures var addr := Split(token, '/')[0];
            ParseIpv4Range(token).Some? <==> IsQuad(addr) && IsMask(MaskText(token))
    ensures ParseIpv4Range(token).Some? ==>
              var ip, range := QuadValue(Split(Split(token, '/')[0], '.')), ParseIpv4Range(token).value;
              && range.bits == (if MaskText(token).None? then 32 else DecimalValue(MaskText(token).value))
              && forall address | 0 <= address < WORD ::
                   InRange(address, range) <==> address / Pow2(32 - range.bits) == ip / Pow2(32 - range.bits)
  {
    var addr := Split(token, '/')[0];
    if ParseIpv4Range(token).Some? {
      QuadFits(addr);
      var ip, bits := QuadValue(Split(addr, '.')), ParseIpv4Range(token).value.bits;
      ParsedHoldsAddress(ip, bits);
    }
  }

  /** An address shares a wide network exactly when the narrow network around it does. */
  lemma {:induction false} QuotientsNest(x: nat, y: nat, j: nat, k: nat)
    requires j <= k && x / Pow2(j) == y / Pow2(j)
    ensures x / Pow2(k) == y / Pow2(k)
    decreases k
  {
    if j < k {
      QuotientsNest(x, y, j, k - 1);
      DivideTwice(x, Pow2(k - 1));
      DivideTwice(y, Pow2(k - 1));
    }
  }

  lemma DivideTwice(x: nat, m: nat)
    requires m >= 1
    ensures x / (2 * m) == x / m / 2
  {
    var q := x / m;
    assert x == 2 * m * (q / 2) + (m * (q % 2) + x % m);
    ModUnique(x, 2 * m, q / 2, m * (q % 2) + x % m);
  }

  lemma SameQuotient(x: nat, y: nat, m: nat)
    requires m >= 1
    ensures x - x % m == y - y % m <==> x / m == y / m
  {
    assert x - x % m == m * (x / m) && y - y % m == m * (y / m);
    if m * (x / m) == m * (y / m) { ModUnique(m * (x / m), m, y / m, 0); ModUnique(m * (x / m), m, x / m, 0); }
  }

  /** Overlap is a shared address, and overlapping prefixes are nested. */
  lemma OverlapExact(a: Ipv4Range, b: Ipv4Range)
    ensures RangesOverlap(a, b) <==> exists address :: InRange(address, a) && InRange(address, b)
    ensures RangesOverlap(a, b) ==>
              || (forall address :: InRange(address, a) ==> InRange(address, b))
              || (forall address :: InRange(address, b) ==> InRange(address, a))
  {
    if a.bits <= b.bits { OverlapNested(a, b); } else { OverlapNested(b, a); }
  }

  lemma OverlapNested(wide: Ipv4Range, narrow: Ipv4Range)
    requires wide.bits <= narrow.bits
    ensures RangesOverlap(wide, narrow) <==>
            exists address :: InRange(address, wide) && InRange(address, narrow)
    ensures RangesOverlap(wide, narrow) ==>
              forall address :: InRange(address, narrow) ==> InRange(address, wide)
  {
    assert InRange(narrow.base, narrow);
    forall address | InRange(address, narrow)
      ensures InRange(address, wide) <==> RangesOverlap(wide, narrow)
    {
      InsideNarrow(address, wide, narrow);
    }
  }

  lemma InsideNarrow(address: nat, wide: Ipv4Range, narrow: Ipv4Range)
    requires wide.bits <= narrow.bits
    requires InRange(address, narrow)
    ensures InRange(address, wide) <==> RangesOverlap(wide, narrow)
  {
    OverlapIsSharedQuotient(wide, narrow);
    QuotientsNest(address, narrow.base, 32 - narrow.bits, 32 - wide.bits);
  }

  lemma OverlapIsSharedQuotient(wide: Ipv4Range, narrow: Ipv4Range)
    requires wide.bits <= narrow.bits
    ensures RangesOverlap(wide, narrow) <==>
            wide.base / Pow2(32 - wide.bits) == narrow.base / Pow2(32 - wide.bits)
  {
    MaskClears(wide.base, wide.bits);
    MaskClears(narrow.base, wide.bits);
    SameQuotient(wide.base, narrow.base, Pow2(32 - wide.bits));
  }

  // ------------------------------------------------------------- classification

  /** Decimal prefix length of one to three digits, where there is one at all. */
  predicate LooksLikeCidr(token: string) {
    var parts := Split(token, '/');
    && (|parts| > 1 ==> AllDigits(parts[1]) && |parts[1]| <= 3)
    && (IsQuad(parts[0]) || LooksLikeIpv6(parts[0]))
  }

  predicate LooksLikeIpv6(addr: string) {
    && ':' in addr
    && forall c | c in addr ::
         IsDigit(c) || 'a' <= c <= 'f' || 'A' <= c <= 'F' || c == ':'
  }

  function ClassifyToken(token: string, hostAliases: set<string>): TokenKind {
    if token == "*" then Wildcard
    else if StartsWith(token, "group:") then Group
    else if StartsWith(token, "tag:") then Tag
    else if StartsWith(token, "autogroup:") then Autogroup
    else if token in hostAliases then Host
    else if LooksLikeCidr(token) then Cidr
    else if '@' in token then User
    else Literal
  }
}
