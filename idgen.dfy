/** Generation of a student's registration number and a teacher's employee
    id when a signup is promoted: up to twenty random candidates are looked
    up against the existing ones, and the first unused one is kept; when all
    twenty are taken a fallback value is used without a lookup. The random
    draws and the clock are parameters. */
module IdGen {
  import opened Text
  import opened Records
  import opened Calendar

  /** `''.join(random.choices(string.digits, k=6))`, as the number it spells. */
  type SixDigitDraw = n: int | 0 <= n < 1000000
  /** `''.join(random.choices(string.digits, k=4))`. */
  type FourDigitDraw = n: int | 0 <= n < 10000
  /** `random.randint(1000, 9999)`. */
  type EmployeeDraw = n: int | 1000 <= n <= 9999 witness 1000

  predicate IsLowerHexDigit(c: char) { '0' <= c <= '9' || 'a' <= c <= 'f' }
  predicate IsUpperHexDigit(c: char) { '0' <= c <= '9' || 'A' <= c <= 'F' }

  /** `uuid.uuid4().hex`: 32 lower-case hexadecimal digits. */
  type UuidHex = s: string | |s| == 32 && forall i :: 0 <= i < |s| ==> IsLowerHexDigit(s[i])
    witness "00000000000000000000000000000000"

  /** The random values one promotion may consume: one draw per loop
      iteration for each kind of identifier, and the fallbacks' randomness
      (`uuid4().hex` for teachers). */
  datatype RawDraws = IdDraws(
    regNos: seq<SixDigitDraw>, regSuffix: FourDigitDraw,
    empNos: seq<EmployeeDraw>, uuidHex: UuidHex)

  /** Exactly one draw per possible loop iteration. */
  type IdDraws = d: RawDraws | |d.regNos| == MaxIdAttempts && |d.empNos| == MaxIdAttempts
    witness IdDraws(seq(20, _ => 0), 0, seq(20, _ => 1000), "00000000000000000000000000000000")

  /** A registration-number candidate: `YY` + six digits. */
  function RegNoCandidate(now: int, draw: SixDigitDraw): (c: string)
    ensures |c| == 8 && AllDigits(c) && c[..2] == YY(now)
    ensures DigitsValue(c[2..]) == draw
  {
    var r := YY(now) + Pad(draw, 6);
    assert r[2..] == Pad(draw, 6);
    assert Pow10(6) == 1000000;
    PadExact(draw, 6);
    r
  }

  /** The registration-number fallback: `yymmddHHMMSS` + four digits. */
  function RegNoFallback(now: int, suffix: FourDigitDraw): (c: string)
    ensures |c| == 16 && AllDigits(c) && c[..12] == YYMMDDHHMMSS(now)
    ensures DigitsValue(c[12..]) == suffix
  {
    var r := YYMMDDHHMMSS(now) + Pad(suffix, 4);
    assert r[12..] == Pad(suffix, 4);
    assert Pow10(4) == 10000;
    PadExact(suffix, 4);
    r
  }

  /** An employee-id candidate: `FAC` + `yymmdd` + a number from 1000 to 9999. */
  function EmpIdCandidate(now: int, draw: EmployeeDraw): (c: string)
    ensures |c| == 13 && c[..3] == "FAC" && c[3..9] == YYMMDD(now) && AllDigits(c[3..])
    ensures DigitsValue(c[9..]) == draw
  {
    var r := "FAC" + YYMMDD(now) + Pad(draw, 4);
    assert r[3..] == YYMMDD(now) + Pad(draw, 4);
    assert r[9..] == Pad(draw, 4);
    assert Pow10(4) == 10000;
    PadExact(draw, 4);
    r
  }

  /** The employee-id fallback: `FAC` + the first ten hex digits of a UUID,
      upper-cased. */
  function EmpIdFallback(uuidHex: UuidHex): (c: string)
    ensures |c| == 13 && c[..3] == "FAC"
    ensures forall i :: 3 <= i < 13 ==> IsUpperHexDigit(c[i])
    ensures Lower(c[3..]) == uuidHex[..10]
  {
    var suffix := Upper(uuidHex[..10]);
    assert Lower(suffix) == uuidHex[..10] by {
      forall i | 0 <= i < 10 ensures Lower(suffix)[i] == uuidHex[i] {
        assert IsLowerHexDigit(uuidHex[i]);
      }
    }
    var c := "FAC" + suffix;
    assert c[3..] == suffix;
    c
  }

  function RegNoCandidates(now: int, draws: seq<SixDigitDraw>): (cs: seq<string>)
    ensures |cs| == |draws|
    ensures forall i :: 0 <= i < |draws| ==> cs[i] == RegNoCandidate(now, draws[i])
  {
    seq(|draws|, i requires 0 <= i < |draws| => RegNoCandidate(now, draws[i]))
  }

  function EmpIdCandidates(now: int, draws: seq<EmployeeDraw>): (cs: seq<string>)
    ensures |cs| == |draws|
    ensures forall i :: 0 <= i < |draws| ==> cs[i] == EmpIdCandidate(now, draws[i])
  {
    seq(|draws|, i requires 0 <= i < |draws| => EmpIdCandidate(now, draws[i]))
  }

  /** Index of the first candidate not yet taken, or |cands| when all are. */
  function FirstFreeIndex(taken: set<string>, cands: seq<string>): (k: nat)
    ensures k <= |cands|
    ensures k < |cands| ==> cands[k] !in taken
    ensures forall j :: 0 <= j < k ==> cands[j] in taken
  {
    if cands == [] then 0
    else if cands[0] !in taken then 0
    else 1 + FirstFreeIndex(taken, cands[1..])
  }

  /** The identifier the lookup loop settles on. */
  function FirstFree(taken: set<string>, cands: seq<string>, fallback: string): string {
    var k := FirstFreeIndex(taken, cands);
    if k < |cands| then cands[k] else fallback
  }

  /** The lookup loop with its `break`: tries the candidates in order, at
      most `MaxIdAttempts` of them, and keeps the first one not in `taken`;
      with none free it takes `fallback`. `lookups` counts the queries made. */
  method PickUnused(taken: set<string>, cands: seq<string>, fallback: string) returns (id: string, lookups: nat)
    requires |cands| == MaxIdAttempts
    ensures lookups <= MaxIdAttempts
    ensures id == FirstFree(taken, cands, fallback)
    ensures lookups == if FirstFreeIndex(taken, cands) < |cands| then FirstFreeIndex(taken, cands) + 1 else MaxIdAttempts
  {
    var found := false;
    var at := 0;
    id := fallback;
    lookups := 0;
    for attempt := 0 to MaxIdAttempts
      invariant lookups == attempt
      invariant forall j :: 0 <= j < attempt ==> cands[j] in taken
    {
      var candidate := cands[attempt];
      lookups := lookups + 1;
      if candidate !in taken {
        id, found, at := candidate, true, attempt;
        break;
      }
    }
    if found {
      assert forall j :: 0 <= j < at ==> cands[j] in taken;
      assert FirstFreeIndex(taken, cands) == at;
    }
  }

  /** A registration number produced at promotion is either a fresh
      `YY` + six-digit candidate, after every earlier candidate was found
      taken, or the sixteen-digit timestamp fallback after all twenty were. */
  lemma {:induction false} RegNoShape(taken: set<string>, now: int, draws: seq<SixDigitDraw>, suffix: FourDigitDraw)
    requires |draws| == MaxIdAttempts
    ensures var id := FirstFree(taken, RegNoCandidates(now, draws), RegNoFallback(now, suffix));
      || (|id| == 8 && AllDigits(id) && id[..2] == YY(now) && id !in taken)
      || (|id| == 16 && AllDigits(id) && id[..12] == YYMMDDHHMMSS(now) &&
          forall i :: 0 <= i < |draws| ==> RegNoCandidate(now, draws[i]) in taken)
  {
    var cs := RegNoCandidates(now, draws);
    var k := FirstFreeIndex(taken, cs);
    if k == |cs| {
      forall i | 0 <= i < |draws| ensures RegNoCandidate(now, draws[i]) in taken {
        assert cs[i] == RegNoCandidate(now, draws[i]);
      }
    }
  }

  /** Likewise for employee ids: a fresh `FAC` + `yymmdd` + four-digit
      candidate, or the `FAC` + hex fallback after all twenty were taken. */
  lemma {:induction false} EmpIdShape(taken: set<string>, now: int, draws: seq<EmployeeDraw>, uuidHex: UuidHex)
    requires |draws| == MaxIdAttempts
    ensures var id := FirstFree(taken, EmpIdCandidates(now, draws), EmpIdFallback(uuidHex));
      || (|id| == 13 && id[..3] == "FAC" && id[3..9] == YYMMDD(now) && AllDigits(id[3..]) && id !in taken)
      || (id == EmpIdFallback(uuidHex) &&
          forall i :: 0 <= i < |draws| ==> EmpIdCandidate(now, draws[i]) in taken)
  {
    var cs := EmpIdCandidates(now, draws);
    var k := FirstFreeIndex(taken, cs);
    if k == |cs| {
      forall i | 0 <= i < |draws| ensures EmpIdCandidate(now, draws[i]) in taken {
        assert cs[i] == EmpIdCandidate(now, draws[i]);
      }
    }
  }
}
