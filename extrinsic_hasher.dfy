/** The digest of the extrinsic envelope: its type, its format version, then
    each signed extension in declared order. One visited set, started empty,
    is shared by the envelope type and every extension. */
module ExtrinsicHasher {
  import opened Basics
  import opened ScaleInfo
  import opened FrameMetadata
  import opened Primitives
  import opened TypeHasher

  /** One signed extension: its encoded identifier, then the digest of its
      data type, then the digest of its additional-signed type, the second
      computed with the visited set the first left. */
  function SignedExtensionBytes(c: Codec, reg: Registry, e: SignedExtension, visited: set<TypeId>): (r: Result<Built>)
    ensures r.Ok? ==> visited + {e.ty, e.additionalSigned} <= r.value.visited
    ensures r.Ok? ==> var ty := TypeHash(c, reg, e.ty, visited);
      && ty.Ok? && TypeHash(c, reg, e.additionalSigned, ty.value.visited).Ok?
      && r.value.bytes == c.encodeStr(e.identifier) + ty.value.digest
                          + TypeHash(c, reg, e.additionalSigned, ty.value.visited).value.digest
      && r.value.visited == TypeHash(c, reg, e.additionalSigned, ty.value.visited).value.visited
    ensures r.UnknownTypeId? ==> r.id !in reg
    ensures e.ty in reg && e.additionalSigned in reg && Closed(reg) ==> r.Ok?
  {
    var ty :- TypeHash(c, reg, e.ty, visited);
    var additional :- TypeHash(c, reg, e.additionalSigned, ty.visited);
    Ok(Built(c.encodeStr(e.identifier) + ty.digest + additional.digest, additional.visited))
  }

  function SignedExtensionStep(c: Codec, reg: Registry): (SignedExtension, set<TypeId>) -> Result<Built>
  {
    (e, visited) => SignedExtensionBytes(c, reg, e, visited)
  }

  /** The extrinsic preimage: the tag, the envelope type's digest (computed
      with an empty visited set), the version byte, then every signed
      extension in declared order, with one visited set running from the
      envelope type through the last extension. A failure names an
      unregistered id; when every referenced type is registered in a closed
      registry, hashing succeeds. */
  function ExtrinsicHash(c: Codec, reg: Registry, x: Extrinsic): (r: Result<Hashed>)
    ensures r.Ok? ==> Tagged(c, r.value, ExtrinsicTag)
    ensures r.Ok? ==> |r.value.preimage| >= 34 && r.value.preimage[33] == x.version
    ensures r.Ok? ==> TypeHash(c, reg, x.ty, {}).Ok?
                      && r.value.preimage[1..33] == TypeHash(c, reg, x.ty, {}).value.digest
    ensures r.Ok? ==> var ty := TypeHash(c, reg, x.ty, {});
      var extensions := Fold(SignedExtensionStep(c, reg), x.signedExtensions, ty.value.visited);
      && extensions.Ok?
      && r.value.preimage == [ExtrinsicTag] + ty.value.digest + [x.version] + extensions.value.bytes
      && r.value.preimage[34..] == extensions.value.bytes
    ensures x.ty !in reg ==> r == UnknownTypeId(x.ty)
    ensures r.UnknownTypeId? ==> r.id !in reg
    ensures Closed(reg) && ExtrinsicIn(x, reg) ==> r.Ok?
  {
    var ty :- TypeHash(c, reg, x.ty, {});
    ExtensionsOutcome(c, reg, x, ty.visited);
    var extensions :- Fold(SignedExtensionStep(c, reg), x.signedExtensions, ty.visited);
    var preimage := [ExtrinsicTag] + ty.digest + [x.version] + extensions.bytes;
    assert preimage[1..33] == ty.digest;
    assert preimage[34..] == extensions.bytes;
    Ok(Finish(c, preimage, extensions.visited))
  }

  /** The signed extensions fail only on an id missing from the registry,
      and succeed whenever the registry is closed and holds every id they
      name. */
  lemma ExtensionsOutcome(c: Codec, reg: Registry, x: Extrinsic, visited: set<TypeId>)
    ensures Fold(SignedExtensionStep(c, reg), x.signedExtensions, visited).UnknownTypeId? ==>
              Fold(SignedExtensionStep(c, reg), x.signedExtensions, visited).id !in reg
    ensures Closed(reg) && ExtrinsicIn(x, reg) ==> Fold(SignedExtensionStep(c, reg), x.signedExtensions, visited).Ok?
  {
    FoldFailsOutside(SignedExtensionStep(c, reg), x.signedExtensions, visited, reg);
    if Closed(reg) && ExtrinsicIn(x, reg) {
      FoldSucceeds(SignedExtensionStep(c, reg), x.signedExtensions, visited);
    }
  }
}
