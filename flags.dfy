/** Bit flags and type tags that the COLLADA helpers read or write.
    Their values are those of Blender's DNA headers (DNA_ID.h,
    DNA_object_types.h, DNA_armature_types.h); the headers themselves are not
    part of this model. The proofs only rely on each flag being one bit. */
module Flags {

  /** ID flag bit that marks an object as part of the current export. */
  const LIB_DOIT: bv16 := 0x0400

  /** Object recalc bits: transform and data need recalculation. */
  const OB_RECALC_OB: bv16 := 0x0001
  const OB_RECALC_DATA: bv16 := 0x0002

  /** Bone flag bit: the bone does not deform geometry. */
  const BONE_NO_DEFORM: bv32 := 0x1000

  /** Parent types (Object.partype). */
  const PAROBJECT: int := 0
  const PARSKEL: int := 4

  /** Object type tag of an armature. */
  const OB_ARMATURE: int := 25

  /** The ID flag word with the export mark set; every other bit is kept. */
  function WithMark(flag: bv16): (r: bv16)
    ensures r & LIB_DOIT != 0
    ensures r & !LIB_DOIT == flag & !LIB_DOIT
  {
    flag | LIB_DOIT
  }

  /** The ID flag word with the export mark cleared; every other bit is kept. */
  function WithoutMark(flag: bv16): (r: bv16)
    ensures r & LIB_DOIT == 0
    ensures r & !LIB_DOIT == flag & !LIB_DOIT
  {
    flag & !LIB_DOIT
  }

  /** Setting then clearing the mark restores an unmarked word, and clearing
      then setting restores a marked one. */
  lemma MarkRoundTrip(flag: bv16)
    ensures flag & LIB_DOIT == 0 ==> WithoutMark(WithMark(flag)) == flag
    ensures flag & LIB_DOIT != 0 ==> WithMark(WithoutMark(flag)) == flag
  {
  }
}
