/**
 The packed public signals of a relay package: where each named signal lies for each circuit, cutting the packed
 bytes into fields, and the 32-byte form of field elements. Hex text is taken as the bytes it denotes.
 */
module SignalCodec {
  import opened Common

  type Byte = x: int | 0 <= x < 256

  // ---------------------------------------------------------------- layout

  datatype Shape = Shape(
    nIns: nat, nOuts: nat, publicNInputs: nat, publicNOutputs: nat, nAuditSlots: nat, noteAuditLen: nat, noteOutputLen: nat)

  datatype Indices = Indices(
    nullifier0: nat, nullifier1: nat, stateRoot: nat, withdrawAddressHi: nat, withdrawAddressLo: nat,
    escrowRecipientHi: nat, escrowRecipientLo: nat, publicWithdrawalAssetHi: nat, publicWithdrawalAssetLo: nat,
    publicDepositAssetHi: nat, publicDepositAssetLo: nat, publicDeposit: nat, publicWithdrawal: nat)

  datatype Profile = Profile(nonce: int, signalCount: nat, indices: Indices)

  const FIELD_BYTES := 32
  const PREFIX_BYTES := 4
  const STANDARD_SHAPE := Shape(2, 2, 1, 1, 4, 12, 6)
  const SIX_BY_SIX_SHAPE := Shape(6, 6, 1, 1, 12, 12, 6)

  function PublicOutputsLength(shape: Shape, ciphertexts: bool): nat {
    var auditOffset := shape.nIns + shape.nOuts + shape.nOuts * 2;
    if ciphertexts then
      var outputNoteOffset := auditOffset + shape.nAuditSlots * 2 + shape.nAuditSlots * shape.noteAuditLen + shape.nAuditSlots;
      outputNoteOffset + shape.nOuts * shape.noteOutputLen + shape.nOuts
    else
      var outputNoteOffset := auditOffset + 2 + shape.nAuditSlots;
      outputNoteOffset + shape.nOuts
  }

  function ProfileFromShape(nonce: int, shape: Shape, prefixLength: nat, ciphertexts: bool): Profile {
    var stateRoot := PublicOutputsLength(shape, ciphertexts);
    var signalCount := stateRoot + prefixLength + 2 * shape.publicNInputs + 2 * shape.publicNOutputs
                       + shape.publicNInputs + shape.publicNOutputs;
    Profile(nonce, signalCount, Indices(
      0, 1, stateRoot, stateRoot + 1, stateRoot + 2, stateRoot + 3, stateRoot + 4,
      stateRoot + prefixLength, stateRoot + prefixLength + 1, stateRoot + prefixLength + 2, stateRoot + prefixLength + 3,
      stateRoot + prefixLength + 4, stateRoot + prefixLength + 5))
  }

  /** Only five nonces are known; any other is an error. */
  function RelayLayoutProfileForNonce(nonce: int): Option<Profile> {
    if nonce == 0 then Some(ProfileFromShape(nonce, STANDARD_SHAPE, 5, true))
    else if nonce == 2 then Some(ProfileFromShape(nonce, STANDARD_SHAPE, 7, true))
    else if nonce == 3 then Some(ProfileFromShape(nonce, STANDARD_SHAPE, 7, false))
    else if nonce == 6 then Some(ProfileFromShape(nonce, SIX_BY_SIX_SHAPE, 7, true))
    else if nonce == 7 then Some(ProfileFromShape(nonce, SIX_BY_SIX_SHAPE, 7, false))
    else None
  }

  /** The named indices in their order. */
  function Named(i: Indices): seq<nat> {
    [i.nullifier0, i.nullifier1, i.stateRoot, i.withdrawAddressHi, i.withdrawAddressLo, i.escrowRecipientHi,
     i.escrowRecipientLo, i.publicWithdrawalAssetHi, i.publicWithdrawalAssetLo, i.publicDepositAssetHi,
     i.publicDepositAssetLo, i.publicDeposit, i.publicWithdrawal]
  }

  predicate AllBelow(named: seq<nat>, bound: nat) {
    forall i :: 0 <= i < |named| ==> named[i] < bound
  }

  predicate NoTwoSame(named: seq<nat>) {
    forall i, j :: 0 <= i < j < |named| ==> named[i] != named[j]
  }

  predicate InOrder(named: seq<nat>) {
    forall i, j :: 0 <= i < j < |named| ==> named[i] < named[j]
  }

  /**
   For every shape with one public input and one public output, the named signals lie inside the packed signals
   and the last of them is the last signal. They lie there in their order, and no two share a place, exactly when
   the public outputs hold at least two.
   */
  lemma IndicesFit(nonce: int, shape: Shape, prefixLength: nat, ciphertexts: bool)
    requires shape.publicNInputs == 1 && shape.publicNOutputs == 1 && prefixLength >= 5
    ensures var profile := ProfileFromShape(nonce, shape, prefixLength, ciphertexts);
            var named := Named(profile.indices);
            && AllBelow(named, profile.signalCount)
            && named[|named| - 1] == profile.signalCount - 1
            && (NoTwoSame(named) <==> PublicOutputsLength(shape, ciphertexts) >= 2)
            && (InOrder(named) <==> PublicOutputsLength(shape, ciphertexts) >= 2)
  {
    var profile := ProfileFromShape(nonce, shape, prefixLength, ciphertexts);
    var named := Named(profile.indices);
    if PublicOutputsLength(shape, ciphertexts) >= 2 {
      assert forall i :: 0 <= i < |named| - 1 ==> named[i] < named[i + 1];
      Ascending(named);
    } else if PublicOutputsLength(shape, ciphertexts) == 0 {
      assert named[0] == named[2];
    } else {
      assert named[1] == named[2];
    }
  }

  lemma Ascending(named: seq<nat>)
    requires forall i :: 0 <= i < |named| - 1 ==> named[i] < named[i + 1]
    ensures forall i, j :: 0 <= i < j < |named| ==> named[i] < named[j]
  {
    forall i, j | 0 <= i < j < |named|
      ensures named[i] < named[j]
    {
      var k := i + 1;
      while k < j
        invariant i < k <= j && named[i] < named[k]
      {
        k := k + 1;
      }
    }
  }

  /** The offsets computed from the shape are the published constants of the first circuit. */
  lemma StandardProfileMatchesConstants()
    ensures var profile := RelayLayoutProfileForNonce(0).value;
            profile.signalCount == 93 && Named(profile.indices) == [0, 1, 82, 83, 84, 85, 86, 87, 88, 89, 90, 91, 92]
  {
  }

  /** Every known circuit meets that condition. */
  lemma KnownIndices(nonce: int)
    requires RelayLayoutProfileForNonce(nonce).Some?
    ensures var profile := RelayLayoutProfileForNonce(nonce).value;
            && profile.signalCount < 0x1_0000_0000
            && AllBelow(Named(profile.indices), profile.signalCount)
            && NoTwoSame(Named(profile.indices)) && InOrder(Named(profile.indices))
  {
    var shape := if nonce == 6 || nonce == 7 then SIX_BY_SIX_SHAPE else STANDARD_SHAPE;
    IndicesFit(nonce, shape, if nonce == 0 then 5 else 7, nonce == 0 || nonce == 2 || nonce == 6);
  }

  // ---------------------------------------------------------------- numbers as bytes

  /** The number that bytes denote, most significant first. */
  function BigEndian(bytes: seq<Byte>): nat {
    if bytes == [] then 0 else BigEndian(bytes[..|bytes| - 1]) * 256 + bytes[|bytes| - 1]
  }

  function Power256(n: nat): nat {
    if n == 0 then 1 else 256 * Power256(n - 1)
  }

  lemma {:induction false} BigEndianPrepend(b: Byte, bytes: seq<Byte>)
    ensures BigEndian([b] + bytes) == b * Power256(|bytes|) + BigEndian(bytes)
  {
    if bytes == [] {
      assert [b] + bytes == [b] && [b][..0] == [];
      assert BigEndian([]) == 0 && BigEndian([b]) == BigEndian([b][..0]) * 256 + b;
    } else {
      var init, last := bytes[..|bytes| - 1], bytes[|bytes| - 1];
      assert ([b] + bytes)[..|bytes|] == [b] + init;
      BigEndianPrepend(b, init);
      var p := Power256(|init|);
      assert (b * p + BigEndian(init)) * 256 + last == b * (256 * p) + (BigEndian(init) * 256 + last);
    }
  }

  lemma {:induction false} BigEndianBounded(bytes: seq<Byte>)
    ensures BigEndian(bytes) < Power256(|bytes|)
  {
    if bytes != [] {
      BigEndianBounded(bytes[..|bytes| - 1]);
    }
  }

  /** Bytes of one length are told apart by the number they denote. */
  lemma {:induction false} BigEndianInjective(left: seq<Byte>, right: seq<Byte>)
    requires |left| == |right| && BigEndian(left) == BigEndian(right)
    ensures left == right
    decreases |left|
  {
    if left != [] {
      var a, b := left[..|left| - 1], right[..|right| - 1];
      assert BigEndian(a) * 256 + left[|left| - 1] == BigEndian(b) * 256 + right[|right| - 1];
      assert BigEndian(a) == BigEndian(b) && left[|left| - 1] == right[|right| - 1];
      BigEndianInjective(a, b);
      assert left == a + [left[|left| - 1]] && right == b + [right[|right| - 1]];
    }
  }

  /** The four-byte unsigned form. */
  function UInt32BE(n: nat): (bytes: seq<Byte>)
    requires n < 0x1_0000_0000
    ensures |bytes| == 4
  {
    [n / 256 / 256 / 256, n / 256 / 256 % 256, n / 256 % 256, n % 256]
  }

  lemma FourDigits(a: Byte, b: Byte, c: Byte, d: Byte)
    ensures BigEndian([a, b, c, d]) == ((a * 256 + b) * 256 + c) * 256 + d
  {
    assert [a, b, c, d][..3] == [a, b, c] && [a, b, c][..2] == [a, b] && [a, b][..1] == [a] && [a][..0] == [];
    assert BigEndian([]) == 0;
    assert BigEndian([a]) == a;
    assert BigEndian([a, b]) == a * 256 + b;
    assert BigEndian([a, b, c]) == (a * 256 + b) * 256 + c;
  }

  lemma UInt32ReadsBack(n: nat)
    requires n < 0x1_0000_0000
    ensures BigEndian(UInt32BE(n)) == n
  {
    var m := n / 256;
    var k := m / 256;
    FourDigits(k / 256, k % 256, m % 256, n % 256);
  }

  // ---------------------------------------------------------------- packing and slicing

  predicate Whole(fields: seq<seq<Byte>>) {
    forall i :: 0 <= i < |fields| ==> |fields[i]| == FIELD_BYTES
  }

  /** The bare form: the fields one after another. */
  function Pack(fields: seq<seq<Byte>>): seq<Byte> {
    if fields == [] then [] else Pack(fields[..|fields| - 1]) + fields[|fields| - 1]
  }

  /** The form with the number of fields in front. */
  function PackPrefixed(fields: seq<seq<Byte>>): seq<Byte>
    requires |fields| < 0x1_0000_0000
  {
    UInt32BE(|fields|) + Pack(fields)
  }

  predicate HasSupportedLengthPrefix(bytes: seq<Byte>, signalCount: nat) {
    |bytes| == PREFIX_BYTES + signalCount * FIELD_BYTES && BigEndian(bytes[..PREFIX_BYTES]) == signalCount
  }

  predicate Supported(bytes: seq<Byte>, signalCount: nat) {
    |bytes| == signalCount * FIELD_BYTES || HasSupportedLengthPrefix(bytes, signalCount)
  }

  function Cut(body: seq<Byte>, signalCount: nat): (fields: seq<seq<Byte>>)
    requires |body| >= signalCount * FIELD_BYTES
    ensures |fields| == signalCount && Whole(fields)
  {
    seq(signalCount, i requires 0 <= i < signalCount => body[i * FIELD_BYTES..(i + 1) * FIELD_BYTES])
  }

  function SliceFields(bytes: seq<Byte>, signalCount: nat): Option<seq<seq<Byte>>> {
    if !Supported(bytes, signalCount) then None
    else if HasSupportedLengthPrefix(bytes, signalCount) then Some(Cut(bytes[PREFIX_BYTES..], signalCount))
    else Some(Cut(bytes, signalCount))
  }

  function SliceSupportedPublicSignalFields(bytes: seq<Byte>, nonce: int): Option<seq<seq<Byte>>> {
    match RelayLayoutProfileForNonce(nonce)
    case None => None
    case Some(profile) => SliceFields(bytes, profile.signalCount)
  }

  lemma {:induction false} PackLength(fields: seq<seq<Byte>>)
    requires Whole(fields)
    ensures |Pack(fields)| == |fields| * FIELD_BYTES
  {
    if fields != [] {
      PackLength(fields[..|fields| - 1]);
    }
  }

  lemma {:induction false} CutOfPack(fields: seq<seq<Byte>>)
    requires Whole(fields)
    ensures |Pack(fields)| == |fields| * FIELD_BYTES
    ensures Cut(Pack(fields), |fields|) == fields
  {
    PackLength(fields);
    if fields != [] {
      var init := fields[..|fields| - 1];
      PackLength(init);
      CutOfPack(init);
      var body := Pack(fields);
      forall i | 0 <= i < |fields|
        ensures Cut(body, |fields|)[i] == fields[i]
      {
        if i < |init| {
          assert Cut(Pack(init), |init|)[i] == init[i];
          assert body[i * FIELD_BYTES..(i + 1) * FIELD_BYTES] == Pack(init)[i * FIELD_BYTES..(i + 1) * FIELD_BYTES];
        }
      }
    }
  }

  lemma {:induction false} PackOfCut(body: seq<Byte>, signalCount: nat)
    requires |body| == signalCount * FIELD_BYTES
    ensures Pack(Cut(body, signalCount)) == body
    decreases signalCount
  {
    if signalCount > 0 {
      var short := body[..(signalCount - 1) * FIELD_BYTES];
      PackOfCut(short, signalCount - 1);
      forall i | 0 <= i < signalCount - 1
        ensures Cut(body, signalCount)[i] == Cut(short, signalCount - 1)[i]
      {
        assert body[i * FIELD_BYTES..(i + 1) * FIELD_BYTES] == short[i * FIELD_BYTES..(i + 1) * FIELD_BYTES];
      }
      assert Cut(body, signalCount)[..signalCount - 1] == Cut(short, signalCount - 1);
      assert body == short + body[(signalCount - 1) * FIELD_BYTES..];
    }
  }

  /** Slicing undoes packing, in both forms, for any number of fields the prefix can hold. */
  lemma SliceUndoesPack(fields: seq<seq<Byte>>)
    requires Whole(fields) && |fields| < 0x1_0000_0000
    ensures SliceFields(Pack(fields), |fields|) == Some(fields)
    ensures SliceFields(PackPrefixed(fields), |fields|) == Some(fields)
  {
    CutOfPack(fields);
    UInt32ReadsBack(|fields|);
    assert PackPrefixed(fields)[..PREFIX_BYTES] == UInt32BE(|fields|);
    assert PackPrefixed(fields)[PREFIX_BYTES..] == Pack(fields);
  }

  /** Whatever is accepted is the packing of its slices, in exactly one of the two forms. */
  lemma AcceptedIsPacked(bytes: seq<Byte>, signalCount: nat)
    requires signalCount < 0x1_0000_0000 && SliceFields(bytes, signalCount).Some?
    ensures var fields := SliceFields(bytes, signalCount).value;
            && Whole(fields) && |fields| == signalCount
            && (bytes == Pack(fields) <==> bytes != PackPrefixed(fields))
  {
    var fields := SliceFields(bytes, signalCount).value;
    PackLength(fields);
    if HasSupportedLengthPrefix(bytes, signalCount) {
      PackOfCut(bytes[PREFIX_BYTES..], signalCount);
      UInt32ReadsBack(signalCount);
      BigEndianInjective(bytes[..PREFIX_BYTES], UInt32BE(signalCount));
      assert bytes == bytes[..PREFIX_BYTES] + bytes[PREFIX_BYTES..];
    } else {
      PackOfCut(bytes, signalCount);
    }
  }

  lemma KnownCounts(nonce: int)
    requires RelayLayoutProfileForNonce(nonce).Some?
    ensures RelayLayoutProfileForNonce(nonce).value.signalCount ==
              (if nonce == 0 then 93 else if nonce == 2 then 95 else if nonce == 3 then 29
               else if nonce == 6 then 259 else 57)
    ensures nonce in {0, 2, 3, 6, 7}
  {
  }

  lemma AcceptedLength(bytes: seq<Byte>, nonce: int)
    requires SliceSupportedPublicSignalFields(bytes, nonce).Some?
    ensures RelayLayoutProfileForNonce(nonce).Some?
    ensures var n := RelayLayoutProfileForNonce(nonce).value.signalCount;
            |bytes| == n * FIELD_BYTES || |bytes| == PREFIX_BYTES + n * FIELD_BYTES
  {
  }

  /** The known circuits have different numbers of signals, so no bytes are accepted for two of them. */
  lemma AcceptedForOneNonce(bytes: seq<Byte>, nonce: int, other: int)
    requires SliceSupportedPublicSignalFields(bytes, nonce).Some?
    requires SliceSupportedPublicSignalFields(bytes, other).Some?
    ensures nonce == other
  {
    AcceptedLength(bytes, nonce);
    AcceptedLength(bytes, other);
    OneLength(|bytes|, RelayLayoutProfileForNonce(nonce).value.signalCount,
              RelayLayoutProfileForNonce(other).value.signalCount);
    CountsTellApart(nonce, other);
  }

  lemma CountsTellApart(nonce: int, other: int)
    requires RelayLayoutProfileForNonce(nonce).Some? && RelayLayoutProfileForNonce(other).Some?
    requires RelayLayoutProfileForNonce(nonce).value.signalCount == RelayLayoutProfileForNonce(other).value.signalCount
    ensures nonce == other
  {
    KnownCounts(nonce);
    KnownCounts(other);
  }

  lemma OneLength(length: nat, n: nat, m: nat)
    requires length == n * FIELD_BYTES || length == PREFIX_BYTES + n * FIELD_BYTES
    requires length == m * FIELD_BYTES || length == PREFIX_BYTES + m * FIELD_BYTES
    ensures n == m
  {
  }

  // ---------------------------------------------------------------- the named values

  datatype SupportedProfile = SupportedProfile(
    nullifier0: seq<Byte>, nullifier1: seq<Byte>, stateRoot: seq<Byte>, withdrawAddressHi: seq<Byte>,
    withdrawAddressLo: seq<Byte>, escrowRecipientHi: seq<Byte>, escrowRecipientLo: seq<Byte>,
    publicWithdrawalAssetHi: seq<Byte>, publicWithdrawalAssetLo: seq<Byte>, publicDepositAssetHi: seq<Byte>,
    publicDepositAssetLo: seq<Byte>, publicDepositAmount: nat, publicWithdrawalAmount: nat)

  /** The thirteen named fields as the profile shows them: amounts as numbers, the rest as they are. */
  function AsProfile(values: seq<seq<Byte>>): SupportedProfile
    requires |values| == 13
  {
    SupportedProfile(
      values[0], values[1], values[2], values[3], values[4], values[5], values[6], values[7], values[8], values[9],
      values[10], BigEndian(values[11]), BigEndian(values[12]))
  }

  function Picked(fields: seq<seq<Byte>>, named: seq<nat>): (values: seq<seq<Byte>>)
    requires AllBelow(named, |fields|)
    ensures |values| == |named|
    ensures forall k :: 0 <= k < |named| ==> values[k] == fields[named[k]]
  {
    seq(|named|, k requires 0 <= k < |named| => fields[named[k]])
  }

  /** Looks every named field up; a missing one throws. */
  function ReadFields(fields: seq<seq<Byte>>, i: Indices): Option<SupportedProfile> {
    if AllBelow(Named(i), |fields|) then Some(AsProfile(Picked(fields, Named(i)))) else None
  }

  function ReadRelayTransactSupportedProfile(bytes: seq<Byte>, nonce: int): Option<SupportedProfile> {
    match SliceSupportedPublicSignalFields(bytes, nonce)
    case None => None
    case Some(fields) => ReadFields(fields, RelayLayoutProfileForNonce(nonce).value.indices)
  }

  /** Puts each value at its named place, whatever fields lie there and elsewhere. */
  function Place(fields: seq<seq<Byte>>, named: seq<nat>, values: seq<seq<Byte>>): (placed: seq<seq<Byte>>)
    requires |values| == |named| && AllBelow(named, |fields|)
    ensures |placed| == |fields|
  {
    if named == [] then fields
    else
      var n := |named| - 1;
      Place(fields, named[..n], values[..n])[named[n] := values[n]]
  }

  lemma {:induction false} PlacedIsPicked(fields: seq<seq<Byte>>, named: seq<nat>, values: seq<seq<Byte>>)
    requires |values| == |named| && AllBelow(named, |fields|) && NoTwoSame(named)
    requires Whole(fields) && Whole(values)
    ensures Picked(Place(fields, named, values), named) == values
    ensures Whole(Place(fields, named, values))
  {
    if named != [] {
      var n := |named| - 1;
      PlacedIsPicked(fields, named[..n], values[..n]);
      var before, placed := Place(fields, named[..n], values[..n]), Place(fields, named, values);
      forall k | 0 <= k < |named|
        ensures placed[named[k]] == values[k]
      {
        if k < n {
          assert Picked(before, named[..n])[k] == values[..n][k];
          assert named[k] != named[n];
        }
      }
    }
  }

  /** The thirteen values under their names: the last two are the amounts, as numbers. */
  ghost predicate ShowsValues(profile: SupportedProfile, values: seq<seq<Byte>>)
    requires |values| == 13
  {
    && profile.nullifier0 == values[0] && profile.nullifier1 == values[1] && profile.stateRoot == values[2]
    && profile.withdrawAddressHi == values[3] && profile.withdrawAddressLo == values[4]
    && profile.escrowRecipientHi == values[5] && profile.escrowRecipientLo == values[6]
    && profile.publicWithdrawalAssetHi == values[7] && profile.publicWithdrawalAssetLo == values[8]
    && profile.publicDepositAssetHi == values[9] && profile.publicDepositAssetLo == values[10]
    && profile.publicDepositAmount == BigEndian(values[11]) && profile.publicWithdrawalAmount == BigEndian(values[12])
  }

  /**
   For every known circuit, named values packed at their places are read back by name from either wire form,
   whatever the other signals are.
   */
  lemma ProfileReadsWhatWasPlaced(others: seq<seq<Byte>>, values: seq<seq<Byte>>, nonce: int)
    requires RelayLayoutProfileForNonce(nonce).Some?
    requires |others| == RelayLayoutProfileForNonce(nonce).value.signalCount && Whole(others)
    requires |values| == 13 && Whole(values)
    ensures |others| < 0x1_0000_0000
    ensures AllBelow(Named(RelayLayoutProfileForNonce(nonce).value.indices), |others|)
    ensures var fields := Place(others, Named(RelayLayoutProfileForNonce(nonce).value.indices), values);
            var bare := ReadRelayTransactSupportedProfile(Pack(fields), nonce);
            var prefixed := ReadRelayTransactSupportedProfile(PackPrefixed(fields), nonce);
            bare.Some? && prefixed.Some? && ShowsValues(bare.value, values) && ShowsValues(prefixed.value, values)
  {
    KnownIndices(nonce);
    var named := Named(RelayLayoutProfileForNonce(nonce).value.indices);
    PlacedIsPicked(others, named, values);
    SliceUndoesPack(Place(others, named, values));
  }

  /** Where the named signals lie, given the place of the state root and the length of the public prefix behind it. */
  ghost predicate LieFrom(i: Indices, root: nat, prefix: nat) {
    && i.nullifier0 == 0 && i.nullifier1 == 1 && i.stateRoot == root
    && i.withdrawAddressHi == root + 1 && i.withdrawAddressLo == root + 2
    && i.escrowRecipientHi == root + 3 && i.escrowRecipientLo == root + 4
    && i.publicWithdrawalAssetHi == root + prefix && i.publicWithdrawalAssetLo == root + prefix + 1
    && i.publicDepositAssetHi == root + prefix + 2 && i.publicDepositAssetLo == root + prefix + 3
    && i.publicDeposit == root + prefix + 4 && i.publicWithdrawal == root + prefix + 5
  }

  /** The five known circuits, and where their signals lie; there is no sixth. */
  lemma PlacesByNonce(nonce: int)
    ensures RelayLayoutProfileForNonce(nonce).Some? <==> nonce in {0, 2, 3, 6, 7}
    ensures RelayLayoutProfileForNonce(nonce).Some? ==>
              var profile := RelayLayoutProfileForNonce(nonce).value;
              && profile.nonce == nonce
              && profile.signalCount == profile.indices.publicWithdrawal + 1
              && (nonce == 0 ==> LieFrom(profile.indices, 82, 5))
              && (nonce == 2 ==> LieFrom(profile.indices, 82, 7))
              && (nonce == 3 ==> LieFrom(profile.indices, 16, 7))
              && (nonce == 6 ==> LieFrom(profile.indices, 246, 7))
              && (nonce == 7 ==> LieFrom(profile.indices, 44, 7))
  {
  }

  /** The signal at a place of the packed bytes, whichever form they have: what does not fill a field is the prefix. */
  ghost function Signal(bytes: seq<Byte>, place: nat): seq<Byte> {
    var from := |bytes| % 32 + 32 * place;
    if from + 32 <= |bytes| then bytes[from..from + 32] else []
  }

  /** The profile shows the signals that lie at these places of the bytes, each under its own name. */
  ghost predicate ShowsSignals(p: SupportedProfile, bytes: seq<Byte>, i: Indices) {
    && p.nullifier0 == Signal(bytes, i.nullifier0) && p.nullifier1 == Signal(bytes, i.nullifier1)
    && p.stateRoot == Signal(bytes, i.stateRoot)
    && p.withdrawAddressHi == Signal(bytes, i.withdrawAddressHi)
    && p.withdrawAddressLo == Signal(bytes, i.withdrawAddressLo)
    && p.escrowRecipientHi == Signal(bytes, i.escrowRecipientHi)
    && p.escrowRecipientLo == Signal(bytes, i.escrowRecipientLo)
    && p.publicWithdrawalAssetHi == Signal(bytes, i.publicWithdrawalAssetHi)
    && p.publicWithdrawalAssetLo == Signal(bytes, i.publicWithdrawalAssetLo)
    && p.publicDepositAssetHi == Signal(bytes, i.publicDepositAssetHi)
    && p.publicDepositAssetLo == Signal(bytes, i.publicDepositAssetLo)
    && p.publicDepositAmount == BigEndian(Signal(bytes, i.publicDeposit))
    && p.publicWithdrawalAmount == BigEndian(Signal(bytes, i.publicWithdrawal))
  }

  lemma FieldIsSignal(bytes: seq<Byte>, signalCount: nat, place: nat)
    requires SliceFields(bytes, signalCount).Some? && place < signalCount
    ensures |SliceFields(bytes, signalCount).value| == signalCount
    ensures SliceFields(bytes, signalCount).value[place] == Signal(bytes, place)
  {
    var skip := if HasSupportedLengthPrefix(bytes, signalCount) then 4 else 0;
    assert |bytes| == skip + 32 * signalCount && |bytes| % 32 == skip;
    assert 32 * (place + 1) == 32 * place + 32 <= 32 * signalCount;
  }

  /**
   Bytes are read exactly when the circuit is known and they have its length, bare or with the number of signals in
   front; and then every value is the signal that lies at its place in them.
   */
  lemma ProfileShowsSignals(bytes: seq<Byte>, nonce: int)
    ensures ReadRelayTransactSupportedProfile(bytes, nonce).Some? <==>
              && RelayLayoutProfileForNonce(nonce).Some?
              && var count := RelayLayoutProfileForNonce(nonce).value.signalCount;
                 |bytes| == 32 * count || (|bytes| == 4 + 32 * count && BigEndian(bytes[..4]) == count)
    ensures ReadRelayTransactSupportedProfile(bytes, nonce).Some? ==>
              ShowsSignals(ReadRelayTransactSupportedProfile(bytes, nonce).value, bytes,
                           RelayLayoutProfileForNonce(nonce).value.indices)
  {
    if RelayLayoutProfileForNonce(nonce).Some? {
      KnownIndices(nonce);
      var profile := RelayLayoutProfileForNonce(nonce).value;
      var named := Named(profile.indices);
      if SliceFields(bytes, profile.signalCount).Some? {
        forall k | 0 <= k < 13
          ensures SliceFields(bytes, profile.signalCount).value[named[k]] == Signal(bytes, named[k])
        {
          FieldIsSignal(bytes, profile.signalCount, named[k]);
        }
        NamedOneByOne(profile.indices);
      }
    }
  }

  lemma NamedOneByOne(i: Indices)
    ensures |Named(i)| == 13
    ensures Named(i)[0] == i.nullifier0 && Named(i)[1] == i.nullifier1 && Named(i)[2] == i.stateRoot
    ensures Named(i)[3] == i.withdrawAddressHi && Named(i)[4] == i.withdrawAddressLo
    ensures Named(i)[5] == i.escrowRecipientHi && Named(i)[6] == i.escrowRecipientLo
    ensures Named(i)[7] == i.publicWithdrawalAssetHi && Named(i)[8] == i.publicWithdrawalAssetLo
    ensures Named(i)[9] == i.publicDepositAssetHi && Named(i)[10] == i.publicDepositAssetLo
    ensures Named(i)[11] == i.publicDeposit && Named(i)[12] == i.publicWithdrawal
  {
  }

  // ---------------------------------------------------------------- field elements

  const BN254_SCALAR_MOD: int :=
    21_888_242_871_839_275_222_246_405_745_257_275_088_548_364_400_416_034_343_698_204_186_575_808_495_617

  /** The remainder that keeps the sign of the dividend. */
  function TruncatedRemainder(value: int, modulus: int): int
    requires modulus > 0
  {
    if value >= 0 then value % modulus else -((-value) % modulus)
  }

  lemma {:induction false} MultiplesApart(more: int, less: int, modulus: int)
    requires more > less && modulus > 0
    ensures more * modulus >= less * modulus + modulus
    decreases more - less
  {
    OneMultipleMore(more - 1, modulus);
    if more - 1 > less {
      MultiplesApart(more - 1, less, modulus);
    }
  }

  lemma OneMultipleMore(n: int, modulus: int)
    ensures (n + 1) * modulus == n * modulus + modulus
  {
  }

  lemma DivMod(value: int, modulus: int)
    requires modulus > 0
    ensures value == (value / modulus) * modulus + value % modulus
  {
  }

  lemma ModUnique(value: int, quotient: int, remainder: int, modulus: int)
    requires modulus > 0 && value == quotient * modulus + remainder && 0 <= remainder < modulus
    ensures value % modulus == remainder
  {
    DivMod(value, modulus);
    QuotientUnique(value / modulus, value % modulus, quotient, remainder, modulus);
  }

  lemma QuotientUnique(q: int, r: int, quotient: int, remainder: int, modulus: int)
    requires modulus > 0 && q * modulus + r == quotient * modulus + remainder
    requires 0 <= r < modulus && 0 <= remainder < modulus
    ensures r == remainder
  {
    if q > quotient {
      MultiplesApart(q, quotient, modulus);
    } else if q < quotient {
      MultiplesApart(quotient, q, modulus);
    }
  }

  lemma NormalisedRemainder(value: int, modulus: int)
    requires modulus > 0
    ensures TruncatedRemainder(TruncatedRemainder(value, modulus) + modulus, modulus) == value % modulus
  {
    if value < 0 {
      var r, q := (-value) % modulus, (-value) / modulus;
      DivMod(-value, modulus);
      assert (-q) * modulus == -(q * modulus);
      assert (-q - 1) * modulus == -(q * modulus) - modulus;
      if r == 0 {
        ModUnique(value, -q, 0, modulus);
        ModUnique(modulus, 1, 0, modulus);
      } else {
        ModUnique(value, -q - 1, modulus - r, modulus);
        ModUnique(modulus - r, 0, modulus - r, modulus);
      }
    } else {
      ModUnique(value % modulus + modulus, 1, value % modulus, modulus);
    }
  }

  lemma {:induction false} ModulusFits()
    ensures 0 < BN254_SCALAR_MOD < Power256(32)
  {
    assert Power256(8) == 0x1_0000_0000_0000_0000;
    PowerAdds(8, 8);
    PowerAdds(16, 16);
  }

  lemma {:induction false} PowerAdds(m: nat, n: nat)
    ensures Power256(m + n) == Power256(m) * Power256(n)
    decreases m
  {
    if m > 0 {
      PowerAdds(m - 1, n);
      assert 256 * (Power256(m - 1) * Power256(n)) == (256 * Power256(m - 1)) * Power256(n);
    }
  }

  /** One more byte in front takes the low eight bits over from what is left of the number. */
  lemma ByteTaken(value: nat, tail: seq<Byte>)
    ensures value * Power256(|tail|) + BigEndian(tail)
         == (value / 256) * Power256(|tail| + 1) + BigEndian([value % 256] + tail)
  {
    var p, q, b := Power256(|tail|), value / 256, value % 256;
    BigEndianPrepend(b, tail);
    assert value == q * 256 + b;
    Spread(q, b, p);
  }

  lemma Spread(q: int, b: int, p: int)
    ensures (q * 256 + b) * p == q * (256 * p) + b * p
  {
  }

  /** The 32 bytes of a decimal reduced into the field: they read back as the least non-negative residue. */
  method FrDecimalToPaddedBytes32(decimal: int) returns (bytes: array<Byte>)
    ensures fresh(bytes) && bytes.Length == FIELD_BYTES
    ensures BigEndian(bytes[..])
         == decimal % 21888242871839275222246405745257275088548364400416034343698204186575808495617
    ensures 0 <= decimal < BN254_SCALAR_MOD ==> BigEndian(bytes[..]) == decimal
  {
    NormalisedRemainder(decimal, BN254_SCALAR_MOD);
    var value := TruncatedRemainder(TruncatedRemainder(decimal, BN254_SCALAR_MOD) + BN254_SCALAR_MOD, BN254_SCALAR_MOD);
    ghost var residue := value;
    bytes := new Byte[FIELD_BYTES](_ => 0);
    var index := FIELD_BYTES - 1;
    while index >= 0
      invariant -1 <= index < FIELD_BYTES && value >= 0
      invariant residue == value * Power256(FIELD_BYTES - 1 - index) + BigEndian(bytes[index + 1..])
    {
      ghost var tail := bytes[index + 1..];
      ByteTaken(value, tail);
      bytes[index] := value % 256;
      assert bytes[index..] == [value % 256] + tail;
      value := value / 256;
      index := index - 1;
    }
    assert bytes[0..] == bytes[..];
    NothingLeft(value, bytes[..], residue);
    InsideField(decimal);
  }

  lemma NothingLeft(value: nat, bytes: seq<Byte>, residue: nat)
    requires |bytes| == FIELD_BYTES && residue < BN254_SCALAR_MOD
    requires residue == value * Power256(FIELD_BYTES) + BigEndian(bytes)
    ensures BigEndian(bytes) == residue
  {
    ModulusFits();
    if value >= 1 {
      MultiplesApart(value, 0, Power256(FIELD_BYTES));
    }
  }

  lemma InsideField(decimal: int)
    ensures 0 <= decimal < BN254_SCALAR_MOD ==> decimal % BN254_SCALAR_MOD == decimal
  {
    if 0 <= decimal < BN254_SCALAR_MOD {
      ModUnique(decimal, 0, decimal, BN254_SCALAR_MOD);
    }
  }

  /** Those bytes are the only 32 that read back so: amounts written into a field are read back unchanged. */
  lemma PaddedBytesAreUnique(left: seq<Byte>, right: seq<Byte>, decimal: int)
    requires |left| == FIELD_BYTES && |right| == FIELD_BYTES
    requires BigEndian(left) == decimal % BN254_SCALAR_MOD && BigEndian(right) == decimal % BN254_SCALAR_MOD
    ensures left == right
  {
    BigEndianInjective(left, right);
  }
}
