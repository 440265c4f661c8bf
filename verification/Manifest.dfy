/** Signed batch manifests: sign, verify and the text the signature covers. */
module BatchManifests {
  import opened Outcomes
  import opened MerkleRoots

  datatype GovernanceError = Invalid

  /** Digests are text; `mac` is the keyed signature of a text. */
  datatype Signing<!Doc> = Signing(hash: Hashing<Doc, string>, mac: (seq<nat>, string) -> string)

  datatype Manifest = Manifest(
    batchId: string,
    tenant: string,
    collector: string,
    count: nat,
    root: string,
    previousRoot: Option<string>,
    keyId: string,
    signature: string)

  datatype Anchor = Anchor(batchId: string, root: string)

  // ---------- the signed text ----------

  const NUL := '\0'

  function Decimal(n: nat): string {
    if n < 10 then ['0' + n as char] else Decimal(n / 10) + ['0' + (n % 10) as char]
  }

  /** Fields separated by NUL characters. */
  function Join(fields: seq<string>): string {
    if fields == [] then "" else if |fields| == 1 then fields[0] else fields[0] + [NUL] + Join(fields[1..])
  }

  function Fields(m: Manifest): seq<string> {
    [m.batchId, m.tenant, m.collector, Decimal(m.count), m.root,
     if m.previousRoot.Some? then m.previousRoot.value else "", m.keyId]
  }

  function SignedText(m: Manifest): string {
    Join(Fields(m))
  }

  /** An absent previous root and an empty one are signed alike. */
  function Normal(m: Manifest): Manifest {
    m.(previousRoot := if m.previousRoot == None then Some("") else m.previousRoot, signature := "")
  }

  predicate NulFree(m: Manifest) {
    NUL !in m.batchId && NUL !in m.tenant && NUL !in m.collector && NUL !in m.root && NUL !in m.keyId &&
    (m.previousRoot.Some? ==> NUL !in m.previousRoot.value)
  }

  function DigitValue(c: char): nat {
    if '0' <= c <= '9' then (c - '0') as nat else 0
  }

  function Value(s: string): nat {
    if s == "" then 0 else 10 * Value(s[..|s| - 1]) + DigitValue(s[|s| - 1])
  }

  /** Decimal rendering uses digits only and can be read back. */
  lemma {:induction false} DecimalRoundTrip(n: nat)
    ensures forall c | c in Decimal(n) :: '0' <= c <= '9'
    ensures Value(Decimal(n)) == n
  {
    if n >= 10 {
      DecimalRoundTrip(n / 10);
      var s := Decimal(n);
      assert s[..|s| - 1] == Decimal(n / 10);
    } else {
      assert Decimal(n)[..0] == "";
    }
  }

  /** And it starts with a zero only if it is "0". */
  lemma {:induction false} DecimalHasNoLeadingZero(n: nat)
    ensures Decimal(n) != "" && (n > 0 ==> Decimal(n)[0] != '0') && (n == 0 ==> Decimal(n) == "0")
  {
    if n >= 10 {
      DecimalHasNoLeadingZero(n / 10);
      assert Decimal(n)[0] == Decimal(n / 10)[0];
    }
  }

  lemma SplitAtNul(a: string, x: string, b: string, y: string)
    requires NUL !in a && NUL !in b
    requires a + [NUL] + x == b + [NUL] + y
    ensures a == b && x == y
  {
    var s, t := a + [NUL] + x, b + [NUL] + y;
    assert s[|a|] == NUL && t[|b|] == NUL;
    assert forall i | 0 <= i < |b| :: t[i] == b[i];
    assert forall i | 0 <= i < |a| :: s[i] == a[i];
    assert |a| == |b|;
    assert a == s[..|a|] == t[..|b|] == b;
    assert x == s[|a| + 1..] == t[|b| + 1..] == y;
  }

  /** NUL-separated fields can be told apart again. */
  lemma {:induction false} JoinInjective(a: seq<string>, b: seq<string>)
    requires |a| == |b|
    requires forall f | f in a || f in b :: NUL !in f
    requires Join(a) == Join(b)
    ensures a == b
  {
    if |a| == 1 {
      assert a == [a[0]] && b == [b[0]];
    } else if |a| > 1 {
      assert a[0] in a && b[0] in b;
      SplitAtNul(a[0], Join(a[1..]), b[0], Join(b[1..]));
      JoinInjective(a[1..], b[1..]);
      assert a == [a[0]] + a[1..] && b == [b[0]] + b[1..];
    }
  }

  lemma JoinCons(field: string, rest: seq<string>)
    requires rest != []
    ensures Join([field] + rest) == field + [NUL] + Join(rest)
  {
    assert ([field] + rest)[1..] == rest;
  }

  /** The signed text, field by field. */
  lemma SignedTextIs(m: Manifest)
    ensures SignedText(m) ==
      m.batchId + ['\0'] + (m.tenant + ['\0'] + (m.collector + ['\0'] + (Decimal(m.count) + ['\0'] + (m.root + ['\0'] +
      ((if m.previousRoot.Some? then m.previousRoot.value else "") + ['\0'] + m.keyId)))))
  {
    var f := Fields(m);
    assert f == [f[0]] + ([f[1]] + ([f[2]] + ([f[3]] + ([f[4]] + ([f[5]] + [f[6]])))));
    assert Join([f[6]]) == f[6];
    hide Join;
    JoinCons(f[5], [f[6]]);
    JoinCons(f[4], [f[5]] + [f[6]]);
    JoinCons(f[3], [f[4]] + ([f[5]] + [f[6]]));
    JoinCons(f[2], [f[3]] + ([f[4]] + ([f[5]] + [f[6]])));
    JoinCons(f[1], [f[2]] + ([f[3]] + ([f[4]] + ([f[5]] + [f[6]]))));
    JoinCons(f[0], [f[1]] + ([f[2]] + ([f[3]] + ([f[4]] + ([f[5]] + [f[6]])))));
  }

  /** The joined text holds one NUL per separator, and no more exactly when the fields hold none. */
  lemma {:induction false} JoinNuls(fields: seq<string>)
    requires fields != []
    ensures multiset(Join(fields))[NUL] >= |fields| - 1
    ensures multiset(Join(fields))[NUL] == |fields| - 1 <==> forall f | f in fields :: NUL !in f
  {
    if |fields| == 1 {
      assert fields == [fields[0]];
    } else {
      var rest := fields[1..];
      JoinNuls(rest);
      assert fields == [fields[0]] + rest;
      assert forall f :: f in fields <==> f == fields[0] || f in rest;
      assert NUL !in fields[0] <==> multiset(fields[0])[NUL] == 0;
      assert multiset(Join(fields))[NUL] == multiset(fields[0])[NUL] + 1 + multiset(Join(rest))[NUL];
    }
  }

  lemma FieldsAreNulFreeIff(m: Manifest)
    ensures NulFree(m) <==> forall f | f in Fields(m) :: NUL !in f
  {
    DecimalRoundTrip(m.count);
    var f := Fields(m);
    assert f == [f[0], f[1], f[2], f[3], f[4], f[5], f[6]];
    assert m.batchId in f && m.tenant in f && m.collector in f && m.root in f && m.keyId in f;
    assert m.previousRoot.Some? ==> m.previousRoot.value in f;
  }

  /** The signed text determines every field of a NUL-free manifest, up to an absent or empty previous root. */
  lemma SignedTextDeterminesManifest(m: Manifest, m': Manifest)
    requires NulFree(m)
    ensures SignedText(m) == SignedText(m') <==> Normal(m) == Normal(m')
  {
    if SignedText(m) == SignedText(m') {
      var f, f' := Fields(m), Fields(m');
      FieldsAreNulFreeIff(m);
      JoinNuls(f);
      JoinNuls(f');
      JoinInjective(f, f');
      assert f[0] == f'[0] && f[1] == f'[1] && f[2] == f'[2] && f[3] == f'[3] && f[4] == f'[4] && f[5] == f'[5] && f[6] == f'[6];
      DecimalRoundTrip(m.count);
      DecimalRoundTrip(m'.count);
    }
  }

  /** A NUL inside a field can be read as the separator to its neighbour. */
  lemma {:induction false} ShiftSeparator(before: seq<string>, a: string, b: string, c: string, after: seq<string>)
    ensures Join(before + [a + [NUL] + b, c] + after) == Join(before + [a, b + [NUL] + c] + after)
  {
    var x, y := before + [a + [NUL] + b, c] + after, before + [a, b + [NUL] + c] + after;
    if before == [] {
      var j := Join([c] + after);
      assert x[1..] == [c] + after && y[1..] == [b + [NUL] + c] + after;
      assert Join([b + [NUL] + c] + after) == b + [NUL] + j by {
        assert ([c] + after)[1..] == after && ([b + [NUL] + c] + after)[1..] == after;
        assert after != [] ==> (b + [NUL] + c) + [NUL] + Join(after) == b + [NUL] + (c + [NUL] + Join(after));
      }
      assert (a + [NUL] + b) + [NUL] + j == a + [NUL] + (b + [NUL] + j);
    } else {
      assert x[1..] == before[1..] + [a + [NUL] + b, c] + after && y[1..] == before[1..] + [a, b + [NUL] + c] + after;
      ShiftSeparator(before[1..], a, b, c, after);
    }
  }

  lemma CutAtNul(s: string) returns (a: string, b: string)
    requires NUL in s
    ensures s == a + [NUL] + b
  {
    var i :| 0 <= i < |s| && s[i] == NUL;
    a, b := s[..i], s[i + 1..];
  }

  /** Of two neighbouring fields, the first can give its tail to the second. */
  lemma GiveRight(m: Manifest, m': Manifest, i: nat, a: string, b: string)
    requires i + 1 < 7 && Fields(m)[i] == a + [NUL] + b
    requires Fields(m') == Fields(m)[i := a][i + 1 := b + [NUL] + Fields(m)[i + 1]]
    ensures SignedText(m') == SignedText(m)
  {
    var f, f' := Fields(m), Fields(m');
    ShiftSeparator(f[..i], a, b, f[i + 1], f[i + 2..]);
    assert f == f[..i] + [a + [NUL] + b, f[i + 1]] + f[i + 2..];
    assert f' == f[..i] + [a, b + [NUL] + f[i + 1]] + f[i + 2..];
  }

  /** Of two neighbouring fields, the second can give its head to the first. */
  lemma GiveLeft(m: Manifest, m': Manifest, i: nat, a: string, b: string)
    requires i + 1 < 7 && Fields(m)[i + 1] == a + [NUL] + b
    requires Fields(m') == Fields(m)[i := Fields(m)[i] + [NUL] + a][i + 1 := b]
    ensures SignedText(m') == SignedText(m)
  {
    var f, f' := Fields(m), Fields(m');
    ShiftSeparator(f[..i], f[i], a, b, f[i + 2..]);
    assert f == f[..i] + [f[i], a + [NUL] + b] + f[i + 2..];
    assert f' == f[..i] + [f[i] + [NUL] + a, b] + f[i + 2..];
  }

  /** Any manifest with a NUL in a field shares its signed text with a different manifest. */
  lemma NulFieldsCollide(m: Manifest) returns (twin: Manifest)
    requires !NulFree(m)
    ensures SignedText(twin) == SignedText(m) && Normal(twin) != Normal(m)
  {
    hide Join, Decimal;
    if NUL in m.batchId {
      var a, b := CutAtNul(m.batchId);
      twin := m.(batchId := a, tenant := b + [NUL] + m.tenant);
      GiveRight(m, twin, 0, a, b);
    } else if NUL in m.tenant {
      var a, b := CutAtNul(m.tenant);
      twin := m.(tenant := a, collector := b + [NUL] + m.collector);
      GiveRight(m, twin, 1, a, b);
    } else if NUL in m.collector {
      var a, b := CutAtNul(m.collector);
      twin := m.(tenant := m.tenant + [NUL] + a, collector := b);
      GiveLeft(m, twin, 1, a, b);
    } else if NUL in m.root {
      var a, b := CutAtNul(m.root);
      twin := m.(root := a, previousRoot := Some(b + [NUL] + Fields(m)[5]));
      GiveRight(m, twin, 4, a, b);
    } else if NUL in m.keyId {
      var a, b := CutAtNul(m.keyId);
      twin := m.(previousRoot := Some(Fields(m)[5] + [NUL] + a), keyId := b);
      GiveLeft(m, twin, 5, a, b);
    } else {
      var a, b := CutAtNul(m.previousRoot.value);
      twin := m.(previousRoot := Some(a), keyId := b + [NUL] + m.keyId);
      GiveRight(m, twin, 5, a, b);
    }
  }

  ghost predicate Identified(m: Manifest) {
    forall m': Manifest | SignedText(m') == SignedText(m) :: Normal(m') == Normal(m)
  }

  /** The signed text identifies a manifest, up to an absent or empty previous root, exactly when no field holds a NUL. */
  lemma SignedTextIdentifiesIff(m: Manifest)
    ensures Identified(m) <==> NulFree(m)
  {
    if NulFree(m) {
      forall m': Manifest | SignedText(m') == SignedText(m) ensures Normal(m') == Normal(m) {
        SignedTextDeterminesManifest(m, m');
      }
    } else {
      var twin := NulFieldsCollide(m);
    }
  }

  ghost predicate OnlyOneWithText(m: Manifest) {
    forall m': Manifest | SignedText(m') == SignedText(m) :: m'.(signature := m.signature) == m
  }

  /** It identifies every field exactly when, besides, a non-empty previous root is named: absent and empty are signed alike. */
  lemma SignedTextIsUniqueIff(m: Manifest)
    ensures OnlyOneWithText(m) <==> NulFree(m) && m.previousRoot.Some? && m.previousRoot.value != ""
  {
    if !NulFree(m) {
      var twin := NulFieldsCollide(m);
      assert twin.(signature := m.signature) != m;
    } else if m.previousRoot.Some? && m.previousRoot.value != "" {
      forall m': Manifest | SignedText(m') == SignedText(m) ensures m'.(signature := m.signature) == m {
        SignedTextDeterminesManifest(m, m');
      }
    } else {
      var twin := m.(previousRoot := if m.previousRoot.Some? then None else Some(""));
      assert Fields(twin) == Fields(m);
      assert SignedText(twin) == SignedText(m) && twin.(signature := m.signature) != m;
    }
  }

  // ---------- sign and verify ----------

  function RootText<Doc>(s: Signing<Doc>, events: seq<Doc>): string
    requires events != []
  {
    "sha256:" + BatchRoot(s.hash, events)
  }

  function Sign<Doc>(
    s: Signing<Doc>, batchId: string, tenant: string, collector: string, events: seq<Doc>,
    previousRoot: Option<string>, keyId: string, key: seq<nat>): Result<Manifest, GovernanceError>
  {
    if events == [] || |key| < 32 then Failure(Invalid)
    else
      var m := Manifest(batchId, tenant, collector, |events|, RootText(s, events), previousRoot, keyId, "");
      Success(m.(signature := s.mac(key, SignedText(m))))
  }

  function Checkpoint(m: Manifest): Anchor {
    Anchor(m.batchId, m.root)
  }

  /** What a call of `verify` ends in; the root of an empty leaf list makes it panic. */
  datatype Checked = Accepted | Rejected | Panicked

  function Verify<Doc>(s: Signing<Doc>, m: Manifest, events: seq<Doc>, key: seq<nat>, anchor: Anchor): Checked {
    if |events| != m.count || anchor != Checkpoint(m) then Rejected
    else if events == [] then Panicked
    else if RootText(s, events) != m.root || m.signature != s.mac(key, SignedText(m)) then Rejected
    else Accepted
  }

  /**
   * `verify` panics exactly on a manifest that counts no event, shown with no event and its own anchor:
   * whatever its root, signature and key. A manifest made by `sign` is never one of these.
   */
  lemma VerifyPanicsIff<Doc>(s: Signing<Doc>, m: Manifest, events: seq<Doc>, key: seq<nat>, anchor: Anchor)
    ensures Verify(s, m, events, key, anchor) == Panicked <==>
      m.count == 0 && events == [] && anchor == Anchor(m.batchId, m.root)
    ensures forall batchId, tenant, collector, signed: seq<Doc>, previousRoot, keyId, signingKey
      | Sign(s, batchId, tenant, collector, signed, previousRoot, keyId, signingKey) == Success(m) ::
      Verify(s, m, events, key, anchor) != Panicked
  {
  }

  /** Two different texts never carry the same signature under one key. */
  ghost predicate IdealMac<Doc>(s: Signing<Doc>) {
    forall key, a, b :: s.mac(key, a) == s.mac(key, b) ==> a == b
  }

  /**
   * Signing works exactly for a non-empty batch and a key of at least 32 bytes; the manifest then carries
   * each argument in its own field, the number of events, and the root of their leaves in any sorted
   * arrangement, and its signature covers exactly the text of those fields.
   */
  lemma SignedManifestCarries<Doc(!new)>(
    s: Signing<Doc>, batchId: string, tenant: string, collector: string, events: seq<Doc>,
    previousRoot: Option<string>, keyId: string, key: seq<nat>, arranged: seq<string>)
    requires TotalOrder(s.hash)
    requires Sorted(s.hash, arranged) && multiset(arranged) == multiset(Leaves(s.hash, events)) && |arranged| == |events|
    ensures var r := Sign(s, batchId, tenant, collector, events, previousRoot, keyId, key);
      && (r.Success? <==> events != [] && |key| >= 32)
      && (r.Success? ==>
            var m := r.value;
            && m.batchId == batchId && m.tenant == tenant && m.collector == collector && m.count == |events|
            && m.previousRoot == previousRoot && m.keyId == keyId
            && m.root == "sha256:" + Root(s.hash, arranged)
            && m.signature == s.mac(key, SignedText(m)))
  {
    if events != [] && |key| >= 32 {
      BatchRootIsRootOfSorted(s.hash, events, arranged);
      var m := Sign(s, batchId, tenant, collector, events, previousRoot, keyId, key).value;
      assert Fields(m) == Fields(m.(signature := ""));
    }
  }

  /**
   * A freshly signed manifest, shown with any events, under any key and against any anchor: it is accepted
   * exactly when the anchor is its own checkpoint, the events are a permutation of the signed ones, and
   * the key gives its signature.
   */
  lemma FreshManifestIsAcceptedIff<Doc(!new)>(
    s: Signing<Doc>, batchId: string, tenant: string, collector: string, events: seq<Doc>,
    previousRoot: Option<string>, keyId: string, key: seq<nat>, shown: seq<Doc>, shownKey: seq<nat>, anchor: Anchor)
    requires Ideal(s.hash)
    requires events != [] && |key| >= 32
    ensures var m := Sign(s, batchId, tenant, collector, events, previousRoot, keyId, key).value;
      Verify(s, m, shown, shownKey, anchor) == Accepted <==>
        && anchor.batchId == batchId && anchor.root == m.root
        && multiset(shown) == multiset(events)
        && s.mac(shownKey, SignedText(m)) == s.mac(key, SignedText(m))
  {
    VerifyAcceptsExactlyPermutations(s, batchId, tenant, collector, events, previousRoot, keyId, key, shown);
    var m := Sign(s, batchId, tenant, collector, events, previousRoot, keyId, key).value;
    assert Fields(m) == Fields(m.(signature := ""));
    hide RootText, SignedText, Fields;
  }

  /** A freshly signed manifest accepts, against its own checkpoint and key, exactly the permutations of what was signed. */
  lemma VerifyAcceptsExactlyPermutations<Doc(!new)>(
    s: Signing<Doc>, batchId: string, tenant: string, collector: string, events: seq<Doc>,
    previousRoot: Option<string>, keyId: string, key: seq<nat>, shown: seq<Doc>)
    requires Ideal(s.hash)
    requires events != [] && |key| >= 32
    ensures var m := Sign(s, batchId, tenant, collector, events, previousRoot, keyId, key).value;
      Verify(s, m, shown, key, Checkpoint(m)) == Accepted <==> multiset(shown) == multiset(events)
  {
    assert |multiset(shown)| == |shown| && |multiset(events)| == |events|;
    if |shown| == |events| {
      SameRootIffPermutation(s.hash, shown, events);
      var root, other := BatchRoot(s.hash, events), BatchRoot(s.hash, shown);
      assert ("sha256:" + root)[7..] == root && ("sha256:" + other)[7..] == other;
      var m := Sign(s, batchId, tenant, collector, events, previousRoot, keyId, key).value;
      assert Fields(m) == Fields(m.(signature := ""));
    }
  }

  /**
   * A manifest that carries another's signature verifies under that key, with any events and any
   * anchor, only if every signed field is the same.
   */
  lemma BorrowedSignatureIsRejected<Doc(!new)>(
    s: Signing<Doc>, m: Manifest, m': Manifest, events: seq<Doc>, key: seq<nat>, anchor: Anchor)
    requires IdealMac(s)
    requires m.signature == s.mac(key, SignedText(m))
    requires m'.signature == m.signature
    requires NulFree(m)
    ensures Verify(s, m', events, key, anchor) == Accepted ==> Normal(m') == Normal(m)
  {
    SignedTextDeterminesManifest(m, m');
  }
}
