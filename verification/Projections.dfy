/** The projection an event queue keeps beside its log: a fold, stamped with how
    much of the log it accounts for and sealed. */
module Projections {
  import opened Wrappers
  import opened QueueModel
  import opened Seal
  import opened SealBursts

  datatype Projection = Projection(claims: Folded, accounted: Option<u64>, seal: Option<u128>)

  /** An event queue's policy, and how its claims are written out as bytes. */
  datatype Spec = Spec(policy: Policy, encode: Folded -> seq<byte>)

  function LittleEndian(n: nat, width: nat): (bytes: seq<byte>)
    ensures |bytes| == width
  {
    if width == 0 then [] else [n % 0x100] + LittleEndian(n / 0x100, width - 1)
  }

  /** The seal over the claims and the stamp: none for an unstamped projection. */
  function Sealed(spec: Spec, claims: Folded, accounted: Option<u64>): Option<u128> {
    if accounted.None? then None
    else Some(Digest(Digest(NOTHING_DIGESTED, spec.encode(claims)), LittleEndian(accounted.value, 8)))
  }

  /** As a writer left it: unstamped, or stamped with a seal that matches. */
  predicate Intact(spec: Spec, p: Projection) {
    p.accounted.None? || (p.seal.Some? && p.seal == Sealed(spec, p.claims, p.accounted))
  }

  function Stamp(spec: Spec, claims: Folded, accounted: u64): (p: Projection)
    ensures Intact(spec, p)
  {
    Projection(claims, Some(accounted), Sealed(spec, claims, Some(accounted)))
  }

  // ----- the log as the transport reads it -----

  /** Where a log ends: after its last record. */
  function End(log: seq<Stored>): nat {
    if log == [] then 0 else log[|log| - 1].after
  }

  /** Positions grow strictly, and fit the stamp. */
  predicate Increasing(log: seq<Stored>) {
    && (forall i | 0 <= i < |log| :: 0 < log[i].after <= LAST_U64)
    && (forall i, j | 0 <= i < j < |log| :: log[i].after < log[j].after)
  }

  /** Where in the log the records after `from` start; none for a position past
      its end or inside a record. */
  function StartAfter(log: seq<Stored>, from: nat): (at: Option<nat>)
    ensures at.Some? ==> at.value <= |log| && (from == 0 || End(log[..at.value]) == from)
    ensures at.None? <==> from != 0 && forall i | 0 <= i < |log| :: log[i].after != from
  {
    if from == 0 then Some(0)
    else if log == [] then None
    else if log[|log| - 1].after == from then
      assert log[..|log|] == log;
      Some(|log|)
    else
      var at := StartAfter(log[..|log| - 1], from);
      assert at.Some? ==> log[..|log| - 1][..at.value] == log[..at.value];
      at
  }

  lemma {:induction false} BoundaryFound(log: seq<Stored>, k: nat)
    requires Increasing(log) && k <= |log|
    ensures StartAfter(log, End(log[..k])) == Some(k)
  {
    if k == |log| {
      assert log[..k] == log;
    } else {
      BoundaryFound(log[..|log| - 1], k);
      assert log[..|log| - 1][..k] == log[..k];
      assert k > 0 ==> log[k - 1].after < log[|log| - 1].after;
    }
  }

  /** An older writer's claims brought up to date: what its projection already
      allocated is taken at its word. */
  function FoldAbove(policy: Policy, from: Folded, floor: nat, log: seq<Stored>): Folded {
    if log == [] then from
    else
      var earlier := FoldAbove(policy, from, floor, log[..|log| - 1]);
      var line := log[|log| - 1].line;
      if line.record.id < floor then earlier else Apply(policy, earlier, line)
  }

  /** What a read trusts of the stored projection. */
  function Checkpoint(spec: Spec, document: Option<Projection>): Option<Projection> {
    if spec.policy.projection && document.Some? && Intact(spec, document.value) then document else None
  }

  function FoldedWhole(spec: Spec, log: seq<Stored>): (Folded, nat) {
    (Fold(spec.policy, log), End(log))
  }

  /** The claims as of the end of the log, and how much of it they account for:
      the checkpoint's where there is one, folded on. */
  function Claims(spec: Spec, checkpoint: Option<Projection>, log: seq<Stored>): (Folded, nat) {
    match checkpoint
    case None => FoldedWhole(spec, log)
    case Some(Projection(claims, None, _)) => (FoldAbove(spec.policy, claims, claims.nextId, log), End(log))
    case Some(Projection(claims, Some(accounted), _)) =>
      match StartAfter(log, accounted)
      case None => FoldedWhole(spec, log)
      case Some(at) =>
        (FoldFrom(spec.policy, claims, log[at..]), if log[at..] == [] then accounted else End(log))
  }

  /** A stored projection that is not trusted, or stamped where no record ends, is passed
      over: the whole log is folded. */
  lemma PassedOver(spec: Spec, document: Option<Projection>, log: seq<Stored>)
    requires var checkpoint := Checkpoint(spec, document);
             checkpoint.Some? ==>
               && checkpoint.value.accounted.Some? && checkpoint.value.accounted != Some(0)
               && forall i | 0 <= i < |log| :: checkpoint.value.accounted != Some(log[i].after)
    ensures Claims(spec, Checkpoint(spec, document), log) == (Fold(spec.policy, log), End(log))
  {
    hide Fold, Intact;
  }

  // ----- agreement -----

  /** A stamped projection that is the fold of the log's first `k` records. */
  ghost predicate FoldsPrefix(spec: Spec, p: Projection, log: seq<Stored>, k: nat) {
    k <= |log| && p.accounted == Some(End(log[..k])) && p.claims == Fold(spec.policy, log[..k])
  }

  ghost predicate Faithful(spec: Spec, p: Projection, log: seq<Stored>) {
    exists k: nat :: FoldsPrefix(spec, p, log, k)
  }

  /** A stored projection: absent, broken and seen to be, or the fold of a prefix
      of the log ending at a record boundary. */
  ghost predicate Trustworthy(spec: Spec, document: Option<Projection>, log: seq<Stored>) {
    document.Some? ==> !Intact(spec, document.value) || Faithful(spec, document.value, log)
  }

  /** Reading through any trustworthy projection is folding the whole log. */
  lemma ClaimsAreTheFold(spec: Spec, document: Option<Projection>, log: seq<Stored>)
    requires Increasing(log) && Trustworthy(spec, document, log)
    ensures Claims(spec, Checkpoint(spec, document), log) == (Fold(spec.policy, log), End(log))
  {
    hide QueueModel.Apply, Intact;
    var checkpoint := Checkpoint(spec, document);
    if checkpoint.Some? {
      var k: nat :| FoldsPrefix(spec, checkpoint.value, log, k);
      BoundaryFound(log, k);
      FoldFromConcat(spec.policy, EMPTY, log[..k], log[k..]);
      assert log[..k] + log[k..] == log;
    }
  }

  /** What was faithful stays so as the log grows. */
  lemma FaithfulGrows(spec: Spec, p: Projection, log: seq<Stored>, appended: seq<Stored>)
    requires Faithful(spec, p, log)
    ensures Faithful(spec, p, log + appended)
  {
    var k: nat :| FoldsPrefix(spec, p, log, k);
    assert (log + appended)[..k] == log[..k];
    assert FoldsPrefix(spec, p, log + appended, k);
  }

  lemma WholeIsFaithful(spec: Spec, log: seq<Stored>)
    requires Increasing(log)
    ensures Faithful(spec, Stamp(spec, Fold(spec.policy, log), End(log)), log)
  {
    assert log[..|log|] == log;
    assert FoldsPrefix(spec, Stamp(spec, Fold(spec.policy, log), End(log)), log, |log|);
  }

  /** Claims whose written bytes were changed anyhow within eight in a row are seen to
      be broken: the seal they were stamped with is not theirs. */
  lemma DamagedClaimsAreSeen(spec: Spec, claims: Folded, damaged: Folded, accounted: u64,
                             before: seq<byte>, was: seq<byte>, became: seq<byte>, after: seq<byte>)
    requires spec.encode(claims) == before + was + after
    requires spec.encode(damaged) == before + became + after && |was| == |became| <= 8 && was != became
    ensures !Intact(spec, Stamp(spec, claims, accounted).(claims := damaged))
  {
    hide Digest, LittleEndian;
    var stamp := LittleEndian(accounted, 8);
    BurstApart(NOTHING_DIGESTED, before, was, became, after + stamp);
    forall written | written == before + was + after || written == before + became + after
      ensures Digest(Digest(NOTHING_DIGESTED, written), stamp) == Digest(NOTHING_DIGESTED, written + stamp)
    {
      DigestOfConcat(NOTHING_DIGESTED, written, stamp);
    }
    assert before + was + after + stamp == before + was + (after + stamp);
    assert before + became + after + stamp == before + became + (after + stamp);
  }

  function Value(bytes: seq<byte>): nat {
    if bytes == [] then 0 else bytes[0] + 0x100 * Value(bytes[1..])
  }

  /** The bytes of a number, lowest first, are its own. */
  lemma {:induction false} LittleEndianReads(n: nat, width: nat)
    requires n < Pow2(8 * width)
    ensures Value(LittleEndian(n, width)) == n
  {
    if width > 0 {
      Pow2Adds(8, 8 * (width - 1));
      Pow2Of8();
      assert n / 0x100 < Pow2(8 * (width - 1));
      hide Pow2;
      LittleEndianReads(n / 0x100, width - 1);
      assert LittleEndian(n, width)[1..] == LittleEndian(n / 0x100, width - 1);
    }
  }

  /** A stamp changed to any other is seen: the seal is not that stamp's. */
  lemma DamagedStampIsSeen(spec: Spec, claims: Folded, accounted: u64, damaged: u64)
    requires accounted != damaged
    ensures !Intact(spec, Stamp(spec, claims, accounted).(accounted := Some(damaged)))
  {
    hide Digest, LittleEndian, Pow2;
    StampFits(accounted);
    StampFits(damaged);
    LittleEndianReads(accounted, 8);
    LittleEndianReads(damaged, 8);
    var sealed := Digest(NOTHING_DIGESTED, spec.encode(claims));
    if Digest(sealed, LittleEndian(accounted, 8)) == Digest(sealed, LittleEndian(damaged, 8)) {
      EightBytesApart(sealed, LittleEndian(accounted, 8), LittleEndian(damaged, 8));
    }
  }

  lemma StampFits(n: u64)
    ensures n < Pow2(64)
  {
    hide Pow2;
    Pow2Of8();
    Pow2Adds(8, 8);
    Pow2Adds(16, 16);
    Pow2Adds(32, 32);
  }

  /** And so is a seal changed or taken away. */
  lemma DamagedSealIsSeen(spec: Spec, claims: Folded, accounted: u64, seal: Option<u128>)
    ensures Intact(spec, Stamp(spec, claims, accounted).(seal := seal)) <==> seal == Stamp(spec, claims, accounted).seal
  {
    hide Digest;
  }
}
