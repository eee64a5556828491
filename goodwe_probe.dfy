/**
 * The register helpers of the GoodWe Modbus probe: the signed view of a
 * 16-bit register, "host[:port]" parsing, the candidate wire addresses of a
 * logical register, the best-effort block read that tries every
 * (address, function code) pair in a fixed order, and the integer parts of
 * the DT and ET runtime decoders. The device itself is a function from
 * (function code, wire address, count) to a read result.
 */
module GoodweProbe {
  import opened Wrappers
  import opened PyText

  // ---------------------------------------------------------------------------
  // Register words
  // ---------------------------------------------------------------------------

  /** The low 16 bits of u, `u & 0xFFFF` (Python's `&` on a negative int also keeps the low bits). */
  function Low16(u: int): (r: int)
    ensures 0 <= r < 0x10000
    ensures (r - u) % 0x10000 == 0
  {
    u % 0x10000
  }

  /** _u16_to_i16: the two's-complement reading of the low 16 bits of u. */
  function U16ToI16(u: int): (r: int)
    ensures -0x8000 <= r < 0x8000
    ensures (r - u) % 0x10000 == 0
    ensures Low16(u) < 0x8000 ==> r == Low16(u)
    ensures Low16(u) >= 0x8000 ==> r == Low16(u) - 0x10000
  {
    var v := Low16(u);
    if v >= 0x8000 then v - 0x10000 else v
  }

  /**
   * The signed reading is the only value of the signed 16-bit range that is
   * congruent to u, so in particular every signed 16-bit value is read back
   * from its own 16-bit pattern.
   */
  lemma I16Unique(u: int, x: int)
    requires -0x8000 <= x < 0x8000 && (x - u) % 0x10000 == 0
    ensures U16ToI16(u) == x
  {
    var r := U16ToI16(u);
    var d := r - x;
    assert d % 0x10000 == 0;
    assert -0x10000 < d < 0x10000;
    assert d == 0x10000 * (d / 0x10000);
  }

  lemma I16RoundTrip(x: int)
    requires -0x8000 <= x < 0x8000
    ensures U16ToI16(Low16(x)) == x
  {
    I16Unique(Low16(x), x);
  }

  // ---------------------------------------------------------------------------
  // host[:port]
  // ---------------------------------------------------------------------------

  const DefaultPort := 502

  /** The trimmed text carries a port part: it has a colon and does not start with '['. */
  predicate HasPortPart(t: string) {
    ':' in t && !StartsWith(t, "[")
  }

  /**
   * _split_host_port: trim, then split at the last colon unless the text has
   * none or starts with '['; a port that int() rejects becomes 502.
   */
  function SplitHostPort(s: string): (r: (string, int))
    ensures !HasPortPart(Strip(s)) ==> r == (Strip(s), DefaultPort)
    ensures HasPortPart(Strip(s)) ==>
      var t := Strip(s);
      var i := LastIndex(t, ':');
      0 <= i && r.0 == t[..i] && ':' !in t[i + 1..]
      && r.1 == ParseInt(t[i + 1..]).GetOr(DefaultPort)
  {
    var t := Strip(s);
    if HasPortPart(t) then
      var i := LastIndex(t, ':');
      (t[..i], ParseInt(t[i + 1..]).GetOr(DefaultPort))
    else
      (t, DefaultPort)
  }

  /**
   * Joining a host and a port with a colon and splitting again gives both
   * back, as long as the host does not start with blank space or '['. The
   * host may itself contain colons: only the last one separates.
   */
  lemma SplitJoinHostPort(host: string, port: nat)
    requires host == [] || (!IsSpace(host[0]) && host[0] != '[')
    ensures SplitHostPort(host + ":" + Decimal(port)) == (host, port)
  {
    var d := Decimal(port);
    var t := host + ":" + d;
    JoinedHostPort(host, port);
    ParseDecimal(port);
    var r := SplitHostPort(t);
    assert Strip(t) == t && LastIndex(t, ':') == |host|;
    assert r.0 == host;
    assert r.1 == ParseInt(d).GetOr(DefaultPort) == port;
  }

  /** The joined text is its own trim, has its last colon right after the host, and splits there into the host and the digits. */
  lemma JoinedHostPort(host: string, port: nat)
    requires host == [] || (!IsSpace(host[0]) && host[0] != '[')
    ensures var d := Decimal(port); var t := host + ":" + d;
      Strip(t) == t && HasPortPart(t) && LastIndex(t, ':') == |host|
      && t[..|host|] == host && t[|host| + 1..] == d
  {
    var d := Decimal(port);
    var t := host + ":" + d;
    assert d == NatDecimal(port);
    assert t[|t| - 1] == d[|d| - 1];
    assert !IsSpace(t[0]);
    StripUnpadded(t);
    assert t[|host|] == ':';
    LastColonBeforeDigits(host, d);
    assert t[..|host|] == host && t[|host| + 1..] == d;
  }

  /** The colon joining a host to a run of digits is the last one. */
  lemma LastColonBeforeDigits(host: string, d: string)
    requires forall i :: 0 <= i < |d| ==> IsDigit(d[i])
    ensures LastIndex(host + ":" + d, ':') == |host|
  {
    assert ':' !in d;
    LastIndexAppend(host + ":", d, ':');
  }

  /** Without a colon (or with a leading bracket) the whole trimmed text is the host and the port is 502. */
  lemma SplitNoPort(s: string)
    requires !HasPortPart(Strip(s))
    ensures SplitHostPort(s) == (Strip(s), DefaultPort)
  {
  }

  // ---------------------------------------------------------------------------
  // Candidate wire addresses
  // ---------------------------------------------------------------------------

  /** The list the source builds before filtering: reg, then reg - 30000 and reg - 30001 when reg reaches those offsets. */
  function RawCandidates(reg: int): seq<int> {
    [reg] + (if reg >= 30000 then [reg - 30000] else []) + (if reg >= 30001 then [reg - 30001] else [])
  }

  /** The elements of s that are not negative, in order. */
  function NonNegative(s: seq<int>): seq<int> {
    if |s| == 0 then []
    else NonNegative(s[..|s| - 1]) + (if s[|s| - 1] >= 0 then [s[|s| - 1]] else [])
  }

  /**
   * The candidate wire addresses of a logical register, case by case: none
   * for a negative register, the register alone below 30000, the register and
   * address 0 at 30000, and both offsets above.
   */
  function WireCandidates(reg: int): seq<int> {
    if reg < 0 then []
    else if reg < 30000 then [reg]
    else if reg == 30000 then [reg, 0]
    else [reg, reg - 30000, reg - 30001]
  }

  predicate StrictlyDecreasing(s: seq<int>) {
    forall i, j :: 0 <= i < j < |s| ==> s[i] > s[j]
  }

  predicate NoDuplicates(s: seq<int>) {
    forall i, j :: 0 <= i < j < |s| ==> s[i] != s[j]
  }

  /**
   * _candidate_wire_addrs: no duplicates (the list even decreases), no
   * negatives, the register itself first when it is not negative, every
   * element one of reg, reg - 30000, reg - 30001, and each offset address
   * present exactly when the register reaches 30000 (resp. 30001).
   */
  lemma WireCandidatesShape(reg: int)
    ensures var c := WireCandidates(reg);
      StrictlyDecreasing(c) && NoDuplicates(c)
      && (forall a :: a in c ==> a >= 0)
      && (reg >= 0 ==> |c| > 0 && c[0] == reg)
      && (forall a :: a in c <==> a >= 0 && (a == reg || (reg >= 30000 && a == reg - 30000) || (reg >= 30001 && a == reg - 30001)))
      && (reg - 30000 in c <==> reg >= 30000)
      && (reg - 30001 in c <==> reg >= 30001)
  {
  }

  lemma WireCandidatesDistinct(reg: int)
    ensures NoDuplicates(WireCandidates(reg))
  {
  }

  /** _candidate_wire_addrs, with the loop that skips negative and already-listed addresses. */
  method CandidateWireAddrs(reg: int) returns (out: seq<int>)
    ensures out == WireCandidates(reg)
  {
    var cands := [reg];
    if reg >= 30000 {
      cands := cands + [reg - 30000];
    }
    if reg >= 30001 {
      cands := cands + [reg - 30001];
    }
    out := [];
    var k := 0;
    while k < |cands|
      invariant 0 <= k <= |cands|
      invariant out == NonNegative(cands[..k])
      invariant forall x, j :: x in out && k <= j < |cands| ==> x > cands[j]
    {
      var a := cands[k];
      assert cands[..k + 1][..k] == cands[..k];
      if a >= 0 && a !in out {
        out := out + [a];
      }
      k := k + 1;
    }
    assert cands[..k] == cands == RawCandidates(reg);
    FilteredCandidates(reg);
  }

  /** Filtering the raw list gives the case table. */
  lemma FilteredCandidates(reg: int)
    ensures NonNegative(RawCandidates(reg)) == WireCandidates(reg)
  {
    var raw := RawCandidates(reg);
    var one := [reg];
    assert NonNegative(one) == NonNegative(one[..0]) + (if reg >= 0 then [reg] else []);
    if reg >= 30000 {
      var two := [reg, reg - 30000];
      assert two[..1] == one;
      assert NonNegative(two) == NonNegative(one) + [reg - 30000];
      if reg >= 30001 {
        assert raw == [reg, reg - 30000, reg - 30001] && raw[..2] == two;
        assert NonNegative(raw) == NonNegative(two) + [reg - 30001];
      } else {
        assert raw == two;
      }
    } else {
      assert raw == one;
    }
  }

  // ---------------------------------------------------------------------------
  // Best-effort block read
  // ---------------------------------------------------------------------------

  /** Modbus function code: read input registers, or read holding registers. */
  datatype Fn = Input | Holding

  /** The outcome of one read: the registers, or the text of the exception. */
  datatype ReadResult = Regs(values: seq<int>) | ReadError(msg: string)

  /** The device: what a read of `count` registers at a wire address answers. */
  type Device = (Fn, int, int) -> ReadResult

  /** The meta dictionary: where the block was found, or why it was not. */
  datatype BlockMeta =
    | Found(logicalBase: int, wireBase: int, count: int, fn: Fn, delta: int)
    | NotFound(err: string)

  /** Function order: the preferred function first, input before holding by default. */
  function FnOrder(prefer: Option<string>): (r: seq<Fn>)
    ensures |r| == 2 && r[0] != r[1]
    ensures prefer == Some("holding") ==> r[0] == Holding
    ensures prefer != Some("holding") ==> r[0] == Input
  {
    if prefer == Some("holding") then [Holding, Input] else [Input, Holding]
  }

  /** The elements of s that are not in h, in order. */
  function Without(s: seq<int>, h: seq<int>): seq<int> {
    if |s| == 0 then []
    else Without(s[..|s| - 1], h) + (if s[|s| - 1] in h then [] else [s[|s| - 1]])
  }

  lemma {:induction false} WithoutMembers(s: seq<int>, h: seq<int>, x: int)
    ensures x in Without(s, h) <==> x in s && x !in h
  {
    if |s| > 0 {
      WithoutMembers(s[..|s| - 1], h, x);
      assert s == s[..|s| - 1] + [s[|s| - 1]];
    }
  }

  lemma {:induction false} WithoutNothing(s: seq<int>)
    ensures Without(s, []) == s
  {
    if |s| > 0 {
      WithoutNothing(s[..|s| - 1]);
      assert s == s[..|s| - 1] + [s[|s| - 1]];
    }
  }

  /** The base the delta hint points at, when there is a hint and that base is not negative. */
  function HintedBase(logicalBase: int, hint: Option<int>): (r: seq<int>)
    ensures |r| <= 1
  {
    if hint.Some? && logicalBase - hint.value >= 0 then [logicalBase - hint.value] else []
  }

  /** The wire bases in the order they are tried. */
  function WireBases(logicalBase: int, hint: Option<int>): seq<int> {
    var h := HintedBase(logicalBase, hint);
    h + Without(WireCandidates(logicalBase), h)
  }

  /** Each base paired with both functions, base by base. */
  function Pairs(bases: seq<int>, fns: seq<Fn>): (r: seq<(int, Fn)>)
    requires |fns| == 2
    ensures |r| == 2 * |bases|
  {
    if |bases| == 0 then [] else [(bases[0], fns[0]), (bases[0], fns[1])] + Pairs(bases[1..], fns)
  }

  lemma {:induction false} PairsAt(bases: seq<int>, fns: seq<Fn>, i: int, f: int)
    requires |fns| == 2 && 0 <= i < |bases| && 0 <= f < 2
    ensures Pairs(bases, fns)[2 * i + f] == (bases[i], fns[f])
  {
    if i > 0 {
      PairsAt(bases[1..], fns, i - 1, f);
    }
  }

  /** Every (wire base, function) pair in the order they are tried: for each base, both functions. */
  function Attempts(logicalBase: int, hint: Option<int>, prefer: Option<string>): (r: seq<(int, Fn)>)
    ensures |r| == 2 * |WireBases(logicalBase, hint)|
  {
    Pairs(WireBases(logicalBase, hint), FnOrder(prefer))
  }

  lemma AttemptAt(logicalBase: int, hint: Option<int>, prefer: Option<string>, i: int, f: int)
    requires 0 <= i < |WireBases(logicalBase, hint)| && 0 <= f < 2
    ensures Attempts(logicalBase, hint, prefer)[2 * i + f] == (WireBases(logicalBase, hint)[i], FnOrder(prefer)[f])
  {
    PairsAt(WireBases(logicalBase, hint), FnOrder(prefer), i, f);
  }

  function Answer(read: Device, a: (int, Fn), count: int): ReadResult {
    read(a.1, a.0, count)
  }

  /** Attempt k is the first one that returns registers. */
  predicate FirstSuccessAt(read: Device, attempts: seq<(int, Fn)>, count: int, k: int) {
    0 <= k < |attempts| && Answer(read, attempts[k], count).Regs?
    && forall j :: 0 <= j < k ==> Answer(read, attempts[j], count).ReadError?
  }

  predicate AllFail(read: Device, attempts: seq<(int, Fn)>, count: int) {
    forall j :: 0 <= j < |attempts| ==> Answer(read, attempts[j], count).ReadError?
  }

  /** `last_err or "unknown error"` once every attempt has failed. */
  function FailureText(read: Device, attempts: seq<(int, Fn)>, count: int): string {
    if |attempts| == 0 then "unknown error"
    else
      var last := Answer(read, attempts[|attempts| - 1], count);
      if last.ReadError? && last.msg != "" then last.msg else "unknown error"
  }

  /** Every base tried is a non-negative address, the hinted one (if any) first, and none twice. */
  lemma WireBasesShape(logicalBase: int, hint: Option<int>)
    ensures var b := WireBases(logicalBase, hint);
      (forall x :: x in b ==> x >= 0)
      && (forall x :: x in b <==> x in HintedBase(logicalBase, hint) || x in WireCandidates(logicalBase))
      && (hint.Some? && logicalBase - hint.value >= 0 ==> b[0] == logicalBase - hint.value)
  {
    WireCandidatesShape(logicalBase);
    var h := HintedBase(logicalBase, hint);
    forall x
      ensures x in WireBases(logicalBase, hint) <==> x in h || x in WireCandidates(logicalBase)
    {
      WithoutMembers(WireCandidates(logicalBase), h, x);
    }
  }

  /** The wire-base list the source builds: the hinted base, then the candidates it does not already hold. */
  method BuildWireBases(logicalBase: int, hint: Option<int>) returns (bases: seq<int>)
    ensures bases == WireBases(logicalBase, hint)
  {
    var cands := CandidateWireAddrs(logicalBase);
    WireCandidatesDistinct(logicalBase);
    bases := [];
    if hint.Some? {
      var wb := logicalBase - hint.value;
      if wb >= 0 {
        bases := bases + [wb];
      }
    }
    ghost var h := bases;
    assert h == HintedBase(logicalBase, hint);
    var k := 0;
    while k < |cands|
      invariant 0 <= k <= |cands|
      invariant bases == h + Without(cands[..k], h)
    {
      var wb := cands[k];
      assert cands[..k + 1][..k] == cands[..k];
      assert wb !in cands[..k];
      WithoutMembers(cands[..k], h, wb);
      if wb !in bases {
        bases := bases + [wb];
      }
      k := k + 1;
    }
    assert cands[..k] == cands;
  }

  /**
   * _read_block_best_effort: try each wire base with both functions in
   * order; return the first registers read, with where they were found, or
   * the last error once every attempt has failed.
   */
  method ReadBlockBestEffort(read: Device, logicalBase: int, count: int, hint: Option<int>, prefer: Option<string>)
    returns (regs: Option<seq<int>>, meta: BlockMeta)
    ensures var a := Attempts(logicalBase, hint, prefer);
      regs.Some? ==> exists k :: FoundAt(read, a, logicalBase, count, k, regs.value, meta)
    ensures var a := Attempts(logicalBase, hint, prefer);
      regs.None? ==> AllFail(read, a, count) && meta == NotFound(FailureText(read, a, count))
  {
    var bases := BuildWireBases(logicalBase, hint);
    var fns := FnOrder(prefer);
    ghost var a := Attempts(logicalBase, hint, prefer);
    assert a == Pairs(bases, fns);
    var wb, fn, lastErr;
    regs, wb, fn, lastErr := TryBases(read, bases, fns, count);
    if regs.Some? {
      meta := Found(logicalBase, wb, count, fn, logicalBase - wb);
      ghost var k :| FirstSuccessAt(read, a, count, k) && regs.value == Answer(read, a[k], count).values && (wb, fn) == a[k];
      assert FoundAt(read, a, logicalBase, count, k, regs.value, meta);
    } else {
      meta := NotFound(if lastErr.None? || lastErr.value == "" then "unknown error" else lastErr.value);
    }
  }

  /**
   * The nested loops of _read_block_best_effort: for each wire base in
   * order, both functions; the first answer wins, and `last_err` keeps the
   * message of the latest failure.
   */
  method TryBases(read: Device, bases: seq<int>, fns: seq<Fn>, count: int)
    returns (regs: Option<seq<int>>, wb: int, fn: Fn, lastErr: Option<string>)
    requires |fns| == 2
    ensures var a := Pairs(bases, fns);
      regs.Some? ==>
        exists k :: FirstSuccessAt(read, a, count, k) && regs.value == Answer(read, a[k], count).values && (wb, fn) == a[k]
    ensures var a := Pairs(bases, fns);
      regs.None? ==> AllFail(read, a, count) && lastErr == LastError(read, a, count, |a|)
  {
    ghost var a := Pairs(bases, fns);
    lastErr := None;
    var i := 0;
    while i < |bases|
      invariant 0 <= i <= |bases|
      invariant FailedBefore(read, a, count, 2 * i)
      invariant lastErr == LastError(read, a, count, 2 * i)
    {
      wb := bases[i];
      PairsAt(bases, fns, i, 0);
      PairsAt(bases, fns, i, 1);
      regs, fn, lastErr := TryFunctions(read, wb, fns, count, a, i, lastErr);
      if regs.Some? {
        ghost var f :| 0 <= f < 2 && fn == fns[f] && FirstSuccessAt(read, a, count, 2 * i + f)
                       && regs.value == Answer(read, a[2 * i + f], count).values;
        assert a[2 * i + f] == (wb, fn);
        return;
      }
      i := i + 1;
    }
    regs, wb, fn := None, 0, Input;
  }

  /**
   * The inner loop of _read_block_best_effort: both functions at one wire
   * base, which are attempts 2i and 2i + 1 of the whole order.
   */
  method TryFunctions(read: Device, wb: int, fns: seq<Fn>, count: int, ghost a: seq<(int, Fn)>, ghost i: nat,
                      lastErr0: Option<string>)
    returns (regs: Option<seq<int>>, fn: Fn, lastErr: Option<string>)
    requires |fns| == 2 && 2 * i + 2 <= |a|
    requires a[2 * i] == (wb, fns[0]) && a[2 * i + 1] == (wb, fns[1])
    requires FailedBefore(read, a, count, 2 * i) && lastErr0 == LastError(read, a, count, 2 * i)
    ensures regs.Some? ==>
      exists f :: 0 <= f < 2 && fn == fns[f] && FirstSuccessAt(read, a, count, 2 * i + f)
                  && regs.value == Answer(read, a[2 * i + f], count).values
    ensures regs.None? ==> FailedBefore(read, a, count, 2 * i + 2) && lastErr == LastError(read, a, count, 2 * i + 2)
  {
    lastErr := lastErr0;
    var f := 0;
    while f < 2
      invariant 0 <= f <= 2
      invariant FailedBefore(read, a, count, 2 * i + f)
      invariant lastErr == LastError(read, a, count, 2 * i + f)
    {
      var res := read(fns[f], wb, count);
      if res.Regs? {
        assert FirstSuccessAt(read, a, count, 2 * i + f);
        return Some(res.values), fns[f], lastErr;
      }
      lastErr := Some(res.msg);
      f := f + 1;
    }
    regs, fn := None, fns[0];
  }

  /** Attempt k is the first to answer, the block is its answer, and the meta says where it was found. */
  predicate FoundAt(read: Device, a: seq<(int, Fn)>, logicalBase: int, count: int, k: int, regs: seq<int>, meta: BlockMeta) {
    && FirstSuccessAt(read, a, count, k)
    && regs == Answer(read, a[k], count).values
    && meta == Found(logicalBase, a[k].0, count, a[k].1, logicalBase - a[k].0)
  }

  /** Every attempt before the n-th failed. */
  predicate FailedBefore(read: Device, attempts: seq<(int, Fn)>, count: int, n: int) {
    n <= |attempts| && forall j :: 0 <= j < n ==> Answer(read, attempts[j], count).ReadError?
  }

  /** `last_err` after the first n attempts have all failed. */
  function LastError(read: Device, attempts: seq<(int, Fn)>, count: int, n: int): Option<string>
    requires 0 <= n && FailedBefore(read, attempts, count, n)
  {
    if n == 0 then None else Some(Answer(read, attempts[n - 1], count).msg)
  }

  /** A block that is found sits at a non-negative wire address, `delta` apart from the logical base. */
  lemma FoundWhereExpected(read: Device, logicalBase: int, count: int, hint: Option<int>, prefer: Option<string>, k: int)
    requires FirstSuccessAt(read, Attempts(logicalBase, hint, prefer), count, k)
    ensures var a := Attempts(logicalBase, hint, prefer)[k];
      a.0 >= 0
      && (a.0 == logicalBase || a.0 == logicalBase - 30000 || a.0 == logicalBase - 30001
          || (hint.Some? && a.0 == logicalBase - hint.value))
  {
    var bases := WireBases(logicalBase, hint);
    WireBasesShape(logicalBase, hint);
    WireCandidatesShape(logicalBase);
    AttemptAt(logicalBase, hint, prefer, k / 2, k % 2);
    assert bases[k / 2] in bases;
  }

  /** A device that answers the first attempt is read there, with no further attempt. */
  lemma FirstAttemptWins(read: Device, logicalBase: int, count: int, hint: Option<int>, prefer: Option<string>)
    requires logicalBase >= 0
    requires hint.None?
    requires read(FnOrder(prefer)[0], logicalBase, count).Regs?
    ensures FirstSuccessAt(read, Attempts(logicalBase, hint, prefer), count, 0)
  {
    WireCandidatesShape(logicalBase);
    WithoutNothing(WireCandidates(logicalBase));
    AttemptAt(logicalBase, hint, prefer, 0, 0);
  }

  /** The result of _read_u16_best_effort: a register value, the failure meta, or IndexError on an empty block. */
  datatype U16Read = U16(value: int, meta: BlockMeta) | NoU16(meta: BlockMeta) | EmptyBlock

  /** _read_u16_best_effort: a one-register block read, its first value masked to 16 bits. */
  method ReadU16BestEffort(read: Device, reg: int, hint: Option<int>, prefer: Option<string>) returns (r: U16Read)
    ensures var a := Attempts(reg, hint, prefer);
      r.U16? ==>
        0 <= r.value < 0x10000
        && exists k :: (FirstSuccessAt(read, a, 1, k)
                        && |Answer(read, a[k], 1).values| > 0
                        && r.value == Low16(Answer(read, a[k], 1).values[0])
                        && r.meta == Found(reg, a[k].0, 1, a[k].1, reg - a[k].0))
    ensures var a := Attempts(reg, hint, prefer);
      r.NoU16? ==> AllFail(read, a, 1) && r.meta == NotFound(FailureText(read, a, 1))
    ensures var a := Attempts(reg, hint, prefer);
      r.EmptyBlock? ==> exists k :: FirstSuccessAt(read, a, 1, k) && Answer(read, a[k], 1).values == []
  {
    var regs, meta := ReadBlockBestEffort(read, reg, 1, hint, prefer);
    if regs.None? {
      return NoU16(meta);
    }
    if |regs.value| == 0 {
      return EmptyBlock;
    }
    return U16(Low16(regs.value[0]), meta);
  }

  // ---------------------------------------------------------------------------
  // Runtime decoders (integer parts)
  // ---------------------------------------------------------------------------

  /** `at`/`u16_at`: the register at a logical address, masked to 16 bits, or the address that is out of range. */
  function RegAt(regs: seq<int>, base: int, addr: int): (r: Result<int, int>)
    ensures r.Success? <==> base <= addr < base + |regs|
    ensures r.Success? ==> r.value == Low16(regs[addr - base])
    ensures r.Failure? ==> r.error == addr
  {
    var i := addr - base;
    if i < 0 || i >= |regs| then Failure(addr) else Success(Low16(regs[i]))
  }

  /**
   * On two 16-bit words, `(hi << 16) | lo` is `hi * 65536 + lo`: the shift
   * leaves the low 16 bits clear, so the or adds the low word. This is why
   * the model below combines the two registers arithmetically.
   */
  lemma ShiftOrIsAdd(h: bv32, l: bv32)
    requires h < 0x10000 && l < 0x10000
    ensures (h << 16) | l == h * 0x10000 + l
  {
  }

  /** `u32_at`: two consecutive registers as one unsigned 32-bit value, or the address when either is out of range. */
  function U32At(regs: seq<int>, base: int, addr: int): (r: Result<int, int>)
    ensures r.Success? <==> base <= addr && addr + 1 < base + |regs|
    ensures r.Success? ==>
      0 <= r.value < 0x1_0000_0000
      && r.value == Low16(regs[addr - base]) * 0x10000 + Low16(regs[addr - base + 1])
    ensures r.Failure? ==> r.error == addr
  {
    var i := addr - base;
    if i < 0 || i + 1 >= |regs| then Failure(addr)
    else Success(Low16(regs[i]) * 0x10000 + Low16(regs[i + 1]))
  }

  /**
   * The DT / D-NS runtime block, as integers in the units of the registers
   * (tenths of a volt, of an ampere, of a degree). `pvCenti` is the sum of the
   * three string powers in hundredths of a watt, before rounding.
   */
  datatype DtReading = DtReading(
    vpv1: int, ipv1: int, vpv2: int, ipv2: int, vpv3: int, ipv3: int,
    pvCenti: int, genW: int, tempDeci: int)

  /**
   * _dt_decode: strings 1 and 2 must be present; string 3 is read as far as
   * the block goes (its voltage can be read without its current); then the
   * generation at 30128 and the temperature at 30141, both signed.
   */
  function DtDecode(regs: seq<int>, base: int): (r: Result<DtReading, int>)
  {
    var vpv1 :- RegAt(regs, base, 30103);
    var ipv1 :- RegAt(regs, base, 30104);
    var vpv2 :- RegAt(regs, base, 30105);
    var ipv2 :- RegAt(regs, base, 30106);
    var (vpv3, ipv3) :=
      match RegAt(regs, base, 30107)
      case Failure(_) => (0, 0)
      case Success(v) =>
        match RegAt(regs, base, 30108)
        case Failure(_) => (v, 0)
        case Success(c) => (v, c);
    var gen :- RegAt(regs, base, 30128);
    var temp :- RegAt(regs, base, 30141);
    Success(DtReading(vpv1, ipv1, vpv2, ipv2, vpv3, ipv3,
      vpv1 * ipv1 + vpv2 * ipv2 + vpv3 * ipv3, U16ToI16(gen), U16ToI16(temp)))
  }

  /** The ET runtime block: PV power estimate and signed generation and feed in watts, temperature in tenths of a degree. */
  datatype EtReading = EtReading(pvEstW: int, genW: int, feedW: int, tempDeci: int)

  function Max0(x: int): int {
    if x > 0 then x else 0
  }

  /** _et_decode: four 32-bit PV powers, then generation, temperature and feed, all signed 16-bit. */
  function EtDecode(regs: seq<int>, base: int): (r: Result<EtReading, int>)
  {
    var ppv1 :- U32At(regs, base, 35105);
    var ppv2 :- U32At(regs, base, 35109);
    var ppv3 :- U32At(regs, base, 35113);
    var ppv4 :- U32At(regs, base, 35117);
    var gen :- RegAt(regs, base, 35138);
    var temp :- RegAt(regs, base, 35176);
    var feed :- RegAt(regs, base, 35140);
    Success(EtReading(Max0(ppv1) + Max0(ppv2) + Max0(ppv3) + Max0(ppv4),
      U16ToI16(gen), U16ToI16(feed), U16ToI16(temp)))
  }

  /** A register range lo..hi (inclusive) that lies inside a block of n registers at base. */
  predicate Covers(base: int, n: int, lo: int, hi: int) {
    base <= lo && hi < base + n
  }

  /** The first read of the plan from index k on, as (address, last register it needs), that the block does not cover. */
  function FirstUncovered(plan: seq<(int, int)>, base: int, n: int, k: nat): Option<int>
    decreases |plan| - k
  {
    if k >= |plan| then None
    else if !Covers(base, n, plan[k].0, plan[k].1) then Some(plan[k].0)
    else FirstUncovered(plan, base, n, k + 1)
  }

  /** The reads _dt_decode makes that must succeed, in order (the string-3 reads may fail). */
  const DtReads: seq<(int, int)> := [(30103, 30103), (30104, 30104), (30105, 30105), (30106, 30106), (30128, 30128), (30141, 30141)]

  /** The reads _et_decode makes, in order: four 32-bit reads, then three single registers. */
  const EtReads: seq<(int, int)> := [(35105, 35106), (35109, 35110), (35113, 35114), (35117, 35118), (35138, 35138), (35176, 35176), (35140, 35140)]

  /** _dt_decode fails exactly at the first of its required reads that falls outside the block. */
  lemma DtDecodeFailure(regs: seq<int>, base: int)
    ensures DtDecode(regs, base).Failure? <==> FirstUncovered(DtReads, base, |regs|, 0).Some?
    ensures DtDecode(regs, base).Failure? ==> DtDecode(regs, base).error == FirstUncovered(DtReads, base, |regs|, 0).value
  {
  }

  /** Hence it succeeds exactly when the block covers 30103 through 30141. */
  lemma DtDecodeRange(regs: seq<int>, base: int)
    ensures DtDecode(regs, base).Success? <==> base <= 30103 && 30141 < base + |regs|
  {
    DtDecodeFailure(regs, base);
  }

  /**
   * A successful DT decode reports the masked string readings, and signed
   * generation and temperature. Because such a block always reaches 30108,
   * the fallback to zero for a missing third string never shows in a
   * successful result.
   */
  lemma DtDecodeValues(regs: seq<int>, base: int)
    requires base <= 30103 && 30141 < base + |regs|
    ensures var r := DtDecode(regs, base);
      r.Success?
      && r.value.vpv1 == Low16(regs[30103 - base]) && r.value.ipv1 == Low16(regs[30104 - base])
      && r.value.vpv2 == Low16(regs[30105 - base]) && r.value.ipv2 == Low16(regs[30106 - base])
      && r.value.vpv3 == Low16(regs[30107 - base]) && r.value.ipv3 == Low16(regs[30108 - base])
      && r.value.pvCenti == r.value.vpv1 * r.value.ipv1 + r.value.vpv2 * r.value.ipv2 + r.value.vpv3 * r.value.ipv3
      && r.value.pvCenti >= 0
      && r.value.genW == U16ToI16(regs[30128 - base]) && r.value.tempDeci == U16ToI16(regs[30141 - base])
      && -0x8000 <= r.value.genW < 0x8000 && -0x8000 <= r.value.tempDeci < 0x8000
  {
  }

  /** _et_decode fails exactly at the first of its reads that falls outside the block. */
  lemma EtDecodeFailure(regs: seq<int>, base: int)
    ensures EtDecode(regs, base).Failure? <==> FirstUncovered(EtReads, base, |regs|, 0).Some?
    ensures EtDecode(regs, base).Failure? ==> EtDecode(regs, base).error == FirstUncovered(EtReads, base, |regs|, 0).value
  {
  }

  /** Hence it succeeds exactly when the block covers 35105 through 35176. */
  lemma EtDecodeRange(regs: seq<int>, base: int)
    ensures EtDecode(regs, base).Success? <==> base <= 35105 && 35176 < base + |regs|
  {
    EtDecodeFailure(regs, base);
  }

  /**
   * A successful ET decode has a PV estimate that is the sum of the four
   * unsigned 32-bit string powers (so never negative), and signed 16-bit
   * generation, feed and temperature.
   */
  lemma EtDecodeValues(regs: seq<int>, base: int)
    requires base <= 35105 && 35176 < base + |regs|
    ensures var r := EtDecode(regs, base);
      r.Success?
      && r.value.pvEstW >= 0
      && r.value.pvEstW == U32At(regs, base, 35105).value + U32At(regs, base, 35109).value
                           + U32At(regs, base, 35113).value + U32At(regs, base, 35117).value
      && r.value.genW == U16ToI16(regs[35138 - base])
      && r.value.feedW == U16ToI16(regs[35140 - base])
      && r.value.tempDeci == U16ToI16(regs[35176 - base])
      && -0x8000 <= r.value.genW < 0x8000 && -0x8000 <= r.value.feedW < 0x8000
      && -0x8000 <= r.value.tempDeci < 0x8000
  {
  }
}
