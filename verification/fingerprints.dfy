/** Reconcile input identity: reasons, input fingerprints, and when a stored plan has the same inputs. */
module Fingerprints {
  import opened Common

  datatype Reason = CodeChange | SourceStateChange

  function ReasonText(r: Reason): string {
    match r
    case CodeChange => "code_change"
    case SourceStateChange => "source_state_change"
  }

  function ParseReason(s: string): Option<Reason> {
    if s == "code_change" then Some(CodeChange)
    else if s == "source_state_change" then Some(SourceStateChange)
    else None
  }

  // ---------------------------------------------------------------------------------------------
  // Decimal rendering, with the parser that reads it back

  function DigitChar(d: nat): (c: char)
    requires d < 10
    ensures '0' <= c <= '9' && c as int == '0' as int + d
  {
    ('0' as int + d) as char
  }

  function Digits(n: nat): (s: string)
    ensures s != "" && forall c :: c in s ==> '0' <= c <= '9'
  {
    if n < 10 then [DigitChar(n)] else Digits(n / 10) + [DigitChar(n % 10)]
  }

  /** `to_string` of an integer. */
  function Decimal(i: int): (s: string)
    ensures s != "" && ',' !in s
  {
    if i < 0 then "-" + Digits(-i) else Digits(i)
  }

  function ReadDigits(s: string): int {
    if s == "" then 0 else 10 * ReadDigits(s[..|s| - 1]) + (s[|s| - 1] as int - '0' as int)
  }

  function ReadDecimal(s: string): int {
    if s != "" && s[0] == '-' then -ReadDigits(s[1..]) else ReadDigits(s)
  }

  lemma {:induction false} DigitsReadBack(n: nat)
    ensures ReadDigits(Digits(n)) == n
  {
    if n < 10 {
      assert Digits(n)[..0] == "";
    } else {
      DigitsReadBack(n / 10);
      assert Digits(n)[..|Digits(n)| - 1] == Digits(n / 10);
    }
  }

  lemma DecimalReadBack(i: int)
    ensures ReadDecimal(Decimal(i)) == i
  {
    if i < 0 {
      DigitsReadBack(-i);
      assert Decimal(i)[1..] == Digits(-i);
    } else {
      DigitsReadBack(i);
      assert Decimal(i)[0] in Digits(i);
    }
  }

  // ---------------------------------------------------------------------------------------------
  // Comma-joined identifiers

  function Rendered(ids: seq<int>): string {
    if ids == [] then ""
    else if |ids| == 1 then Decimal(ids[0])
    else Rendered(ids[..|ids| - 1]) + "," + Decimal(ids[|ids| - 1])
  }

  lemma SplitAtLast(a: string, x: string, b: string, y: string, sep: char)
    requires a + [sep] + x == b + [sep] + y && sep !in x && sep !in y
    ensures a == b && x == y
  {
    var whole := a + [sep] + x;
    assert whole[|a|] == sep && whole[|b|] == sep;
    forall i | |a| < i < |whole| ensures whole[i] != sep { assert whole[i] == x[i - |a| - 1]; }
    forall i | |b| < i < |whole| ensures whole[i] != sep { assert whole[i] == y[i - |b| - 1]; }
    assert whole[..|a|] == a && whole[..|b|] == b;
    assert whole[|a| + 1..] == x && whole[|b| + 1..] == y;
  }

  lemma CommaInRendered(ids: seq<int>)
    ensures |ids| > 1 <==> ',' in Rendered(ids)
    ensures ids == [] <==> Rendered(ids) == ""
  {
    if |ids| > 1 {
      assert Rendered(ids)[|Rendered(ids[..|ids| - 1])|] == ',';
    }
  }

  lemma {:induction false} RenderedInjective(a: seq<int>, b: seq<int>)
    requires Rendered(a) == Rendered(b)
    ensures a == b
    decreases |a|
  {
    CommaInRendered(a);
    CommaInRendered(b);
    if |a| == 1 {
      DecimalReadBack(a[0]);
      DecimalReadBack(b[0]);
    } else if |a| > 1 {
      var i, j := |a| - 1, |b| - 1;
      SplitAtLast(Rendered(a[..i]), Decimal(a[i]), Rendered(b[..j]), Decimal(b[j]), ',');
      RenderedInjective(a[..i], b[..j]);
      DecimalReadBack(a[i]);
      DecimalReadBack(b[j]);
      assert a == a[..i] + [a[i]] && b == b[..j] + [b[j]];
    }
  }

  // ---------------------------------------------------------------------------------------------
  // Source-state fingerprints

  ghost predicate Ascending(s: seq<int>) {
    forall i, j :: 0 <= i < j < |s| ==> s[i] < s[j]
  }

  ghost predicate SameElements(a: seq<int>, b: seq<int>) {
    forall x :: x in a <==> x in b
  }

  /** `f` is the fingerprint of the identifiers, each listed once, in ascending order. */
  ghost predicate FingerprintOf(ids: seq<int>, f: string) {
    exists s :: Ascending(s) && SameElements(s, ids) && f == "source_state_change:" + Rendered(s)
  }

  ghost predicate Sorted(s: seq<int>) {
    forall i, j :: 0 <= i < j < |s| ==> s[i] <= s[j]
  }

  function Insert(s: seq<int>, x: int): (r: seq<int>)
    requires Sorted(s)
    ensures Sorted(r) && forall y :: y in r <==> y in s || y == x
  {
    if s == [] then [x]
    else if x <= s[0] then [x] + s
    else
      var rest := Insert(s[1..], x);
      assert s == [s[0]] + s[1..];
      assert forall i :: 0 <= i < |rest| ==> rest[i] in rest;
      [s[0]] + rest
  }

  method SortIds(ids: seq<int>) returns (sorted: seq<int>)
    ensures Sorted(sorted) && SameElements(sorted, ids)
  {
    sorted := [];
    for i := 0 to |ids|
      invariant Sorted(sorted) && SameElements(sorted, ids[..i])
    {
      assert ids[..i + 1] == ids[..i] + [ids[i]];
      sorted := Insert(sorted, ids[i]);
    }
    assert ids[..|ids|] == ids;
  }

  /** Drops an element equal to the one kept before it. */
  method DropRepeats(sorted: seq<int>) returns (unique: seq<int>)
    requires Sorted(sorted)
    ensures Ascending(unique) && SameElements(unique, sorted)
  {
    unique := [];
    for i := 0 to |sorted|
      invariant Ascending(unique) && SameElements(unique, sorted[..i])
      invariant if i == 0 then unique == [] else unique != [] && unique[|unique| - 1] == sorted[i - 1]
    {
      assert sorted[..i + 1] == sorted[..i] + [sorted[i]];
      if unique == [] || unique[|unique| - 1] != sorted[i] {
        unique := unique + [sorted[i]];
      }
    }
    assert sorted[..|sorted|] == sorted;
  }

  method JoinDecimals(ids: seq<int>) returns (joined: string)
    ensures joined == Rendered(ids)
  {
    joined := "";
    for i := 0 to |ids|
      invariant joined == Rendered(ids[..i])
    {
      assert ids[..i + 1][..i] == ids[..i];
      joined := if i == 0 then Decimal(ids[i]) else joined + "," + Decimal(ids[i]);
    }
    assert ids[..|ids|] == ids;
  }

  /** Sorts the identifiers, drops repeats, and joins their decimal forms. */
  method SourceFingerprint(ids: seq<int>) returns (f: string)
    ensures FingerprintOf(ids, f)
  {
    var sorted := SortIds(ids);
    var unique := DropRepeats(sorted);
    var joined := JoinDecimals(unique);
    f := "source_state_change:" + joined;
  }

  lemma AscendingTail(s: seq<int>)
    requires Ascending(s) && s != []
    ensures forall x :: x in s[1..] <==> x in s && x != s[0]
    ensures forall x :: x in s ==> s[0] <= x
  {
    assert s == [s[0]] + s[1..];
  }

  /** An ascending sequence is determined by its elements. */
  lemma {:induction false} AscendingUnique(a: seq<int>, b: seq<int>)
    requires Ascending(a) && Ascending(b) && SameElements(a, b)
    ensures a == b
  {
    forall i | 0 <= i < |b| ensures b[i] in a { assert b[i] in b; }
    assert b == [] || b[0] in a;
    if a != [] {
      assert a[0] in a && a[0] in b;
      AscendingTail(a);
      AscendingTail(b);
      AscendingUnique(a[1..], b[1..]);
      assert a == [a[0]] + a[1..] && b == [b[0]] + b[1..];
    }
  }

  /** Source-state fingerprints are equal exactly when the sets of event identifiers are. */
  lemma SourceFingerprintsEqual(a: seq<int>, fa: string, b: seq<int>, fb: string)
    requires FingerprintOf(a, fa) && FingerprintOf(b, fb)
    ensures fa == fb <==> SameElements(a, b)
  {
    var s :| Ascending(s) && SameElements(s, a) && fa == "source_state_change:" + Rendered(s);
    var t :| Ascending(t) && SameElements(t, b) && fb == "source_state_change:" + Rendered(t);
    if fa == fb {
      assert fa[20..] == Rendered(s) && fb[20..] == Rendered(t);
      RenderedInjective(s, t);
    }
    if SameElements(a, b) {
      AscendingUnique(s, t);
    }
  }

  // ---------------------------------------------------------------------------------------------
  // Code-change fingerprints

  type Byte = b: nat | b < 256

  function HexChar(d: nat): (c: char)
    requires d < 16
    ensures c != ':' && c != '-'
  {
    "0123456789abcdef"[d]
  }

  lemma HexCharInjective(d: nat, e: nat)
    requires d < 16 && e < 16 && HexChar(d) == HexChar(e)
    ensures d == e
  {
  }

  function Hex(bytes: seq<Byte>): (s: string)
    ensures |s| == 2 * |bytes| && ':' !in s && '-' !in s
  {
    if bytes == [] then "" else [HexChar(bytes[0] / 16), HexChar(bytes[0] % 16)] + Hex(bytes[1..])
  }

  lemma {:induction false} HexInjective(a: seq<Byte>, b: seq<Byte>)
    requires Hex(a) == Hex(b)
    ensures a == b
  {
    if a != [] {
      assert Hex(a)[0] == Hex(b)[0] && Hex(a)[1] == Hex(b)[1];
      HexCharInjective(a[0] / 16, b[0] / 16);
      HexCharInjective(a[0] % 16, b[0] % 16);
      assert Hex(a)[2..] == Hex(a[1..]) && Hex(b)[2..] == Hex(b[1..]);
      HexInjective(a[1..], b[1..]);
      assert a == [a[0]] + a[1..] && b == [b[0]] + b[1..];
    }
  }

  type Uuid = u: seq<Byte> | |u| == 16 witness [0, 0, 0, 0, 0, 0, 0, 0, 0, 0, 0, 0, 0, 0, 0, 0]

  /** The hyphenated lower-case text of a UUID. */
  function UuidText(u: Uuid): (s: string)
    ensures |s| == 36 && ':' !in s
  {
    Hyphenated(Hex(u[..4]), Hex(u[4..6]), Hex(u[6..8]), Hex(u[8..10]), Hex(u[10..]))
  }

  function Hyphenated(a: string, b: string, c: string, d: string, e: string): string {
    a + "-" + b + "-" + c + "-" + d + "-" + e
  }

  lemma HyphenatedGroups(a: string, b: string, c: string, d: string, e: string)
    requires |a| == 8 && |b| == 4 && |c| == 4 && |d| == 4
    ensures var s := Hyphenated(a, b, c, d, e);
      |s| == 24 + |e| && s[..8] == a && s[9..13] == b && s[14..18] == c && s[19..23] == d && s[24..] == e
  {
  }

  lemma UuidTextInjective(u: Uuid, v: Uuid)
    requires UuidText(u) == UuidText(v)
    ensures u == v
  {
    HyphenatedGroups(Hex(u[..4]), Hex(u[4..6]), Hex(u[6..8]), Hex(u[8..10]), Hex(u[10..]));
    HyphenatedGroups(Hex(v[..4]), Hex(v[4..6]), Hex(v[6..8]), Hex(v[8..10]), Hex(v[10..]));
    HexInjective(u[..4], v[..4]);
    HexInjective(u[4..6], v[4..6]);
    HexInjective(u[6..8], v[6..8]);
    HexInjective(u[8..10], v[8..10]);
    HexInjective(u[10..], v[10..]);
    assert u == u[..4] + u[4..6] + u[6..8] + u[8..10] + u[10..];
  }

  function BaselineText(baseline: Option<Uuid>): (s: string)
    ensures ':' !in s
  {
    match baseline
    case Some(u) => UuidText(u)
    case None => "initial"
  }

  function CodeChangeFingerprint(commit: string, baseline: Option<Uuid>): string {
    "code_change:" + commit + ":" + BaselineText(baseline)
  }

  /** Code-change fingerprints are equal exactly when commit and baseline are, whatever the commit text is. */
  lemma CodeChangeFingerprintsEqual(c: string, x: Option<Uuid>, d: string, y: Option<Uuid>)
    ensures CodeChangeFingerprint(c, x) == CodeChangeFingerprint(d, y) <==> c == d && x == y
  {
    if CodeChangeFingerprint(c, x) == CodeChangeFingerprint(d, y) {
      SplitAtLast("code_change:" + c, BaselineText(x), "code_change:" + d, BaselineText(y), ':');
      assert ("code_change:" + c)[12..] == c && ("code_change:" + d)[12..] == d;
      if x.Some? && y.Some? {
        UuidTextInjective(x.value, y.value);
      } else {
        assert |BaselineText(x)| == |BaselineText(y)|;
      }
    }
  }

  // ---------------------------------------------------------------------------------------------
  // Identities

  datatype Inputs = Commit(sha: string, baseline: Option<Uuid>) | Events(ids: seq<int>)

  datatype Identity = Identity(reason: Reason, fingerprint: string)

  /** The reason and fingerprint columns of a stored plan. */
  datatype PlanRow = PlanRow(reason: string, fingerprint: Option<string>)

  method IdentityOf(inputs: Inputs) returns (r: Identity)
    ensures Identifies(r, inputs)
  {
    match inputs {
      case Commit(sha, baseline) =>
        r := Identity(CodeChange, CodeChangeFingerprint(sha, baseline));
      case Events(ids) =>
        var f := SourceFingerprint(ids);
        r := Identity(SourceStateChange, f);
    }
  }

  ghost predicate Identifies(r: Identity, inputs: Inputs) {
    match inputs
    case Commit(sha, baseline) => r.reason == CodeChange && r.fingerprint == CodeChangeFingerprint(sha, baseline)
    case Events(ids) => r.reason == SourceStateChange && FingerprintOf(ids, r.fingerprint)
  }

  /** Equal commits and baselines, or equal sets of event identifiers. */
  ghost predicate SameInputs(a: Inputs, b: Inputs) {
    match (a, b)
    case (Commit(c, x), Commit(d, y)) => c == d && x == y
    case (Events(s), Events(t)) => SameElements(s, t)
    case _ => false
  }

  predicate MatchesPlan(id: Identity, plan: PlanRow) {
    ParseReason(plan.reason) == Some(id.reason) && plan.fingerprint == Some(id.fingerprint)
  }

  /** Whatever a stored plan holds: it matches exactly when it has the reason's text, and the same fingerprint. */
  lemma MatchesPlanIff(id: Identity, plan: PlanRow)
    ensures MatchesPlan(id, plan) <==>
      plan.reason == (if id.reason == CodeChange then "code_change" else "source_state_change") &&
      plan.fingerprint == Some(id.fingerprint)
  {
    assert "code_change" != "source_state_change" by { assert "code_change"[0] != "source_state_change"[0]; }
  }

  lemma FingerprintPrefix(r: Identity, inputs: Inputs)
    requires Identifies(r, inputs)
    ensures |r.fingerprint| > 0
    ensures r.fingerprint[0] == if inputs.Commit? then 'c' else 's'
  {
    match inputs {
      case Commit(sha, baseline) => assert r.fingerprint[0] == "code_change:"[0];
      case Events(ids) =>
        var s :| Ascending(s) && SameElements(s, ids) && r.fingerprint == "source_state_change:" + Rendered(s);
        assert r.fingerprint[0] == "source_state_change:"[0];
    }
  }

  /** The fingerprint alone already tells inputs apart, across reasons too. */
  lemma FingerprintDecides(r: Identity, a: Inputs, p: Identity, b: Inputs)
    requires Identifies(r, a) && Identifies(p, b)
    ensures r.fingerprint == p.fingerprint <==> SameInputs(a, b)
  {
    FingerprintPrefix(r, a);
    FingerprintPrefix(p, b);
    match (a, b) {
      case (Commit(c, x), Commit(d, y)) => CodeChangeFingerprintsEqual(c, x, d, y);
      case (Events(s), Events(t)) => SourceFingerprintsEqual(s, r.fingerprint, t, p.fingerprint);
      case _ =>
    }
  }

  /** A plan stored for some inputs matches exactly the identities of the same inputs. */
  lemma MatchesPlanIffSameInputs(r: Identity, a: Inputs, p: Identity, b: Inputs)
    requires Identifies(r, a) && Identifies(p, b)
    ensures MatchesPlan(r, PlanRow(ReasonText(p.reason), Some(p.fingerprint))) <==> SameInputs(a, b)
  {
    FingerprintDecides(r, a, p, b);
  }

  function PreparationFingerprint(id: Identity): string {
    "target_manifest:" + id.fingerprint
  }

  /** Preparations share a fingerprint exactly when their reconcile inputs are the same, and never with a plan. */
  lemma PreparationDecides(r: Identity, a: Inputs, p: Identity, b: Inputs)
    requires Identifies(r, a) && Identifies(p, b)
    ensures PreparationFingerprint(r) == PreparationFingerprint(p) <==> SameInputs(a, b)
    ensures PreparationFingerprint(r) != p.fingerprint
  {
    FingerprintDecides(r, a, p, b);
    FingerprintPrefix(p, b);
    assert PreparationFingerprint(r)[0] == "target_manifest:"[0];
    assert PreparationFingerprint(r)[16..] == r.fingerprint && PreparationFingerprint(p)[16..] == p.fingerprint;
  }
}
