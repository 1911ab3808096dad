/** Global tile IDs of the Tiled map format as `getTileImageAndOpts`
    (tiled/map.go) decodes them: bits 31, 30 and 29 are the horizontal,
    vertical and diagonal flip flags, and the low 29 bits minus one, in
    32-bit unsigned arithmetic, are the tileset's local tile ID. */
module TileGid {

  const IdMask: bv32 := 0x1FFF_FFFF
  const HorizontalFlag: bv32 := 0x8000_0000
  const VerticalFlag: bv32 := 0x4000_0000
  const DiagonalFlag: bv32 := 0x2000_0000

  datatype TileRef = TileRef(localId: bv32, flipHoriz: bool, flipVert: bool, flipDiag: bool)

  /** The bit at `position` (0 = least significant) of `w`. */
  predicate Bit(w: bv32, position: nat)
    requires position < 32
  {
    (w >> position) & 1 == 1
  }

  function DecodeGid(gid: bv32): (r: TileRef)
    ensures r.flipHoriz <==> Bit(gid, 31)
    ensures r.flipVert <==> Bit(gid, 30)
    ensures r.flipDiag <==> Bit(gid, 29)
    ensures r.localId + 1 == (gid & IdMask)
    ensures (gid & IdMask) == 0 <==> r.localId == 0xFFFF_FFFF
  {
    TileRef((gid & IdMask) - 1, gid & HorizontalFlag > 0, gid & VerticalFlag > 0, gid & DiagonalFlag > 0)
  }

  /** Whether a reference can come out of `DecodeGid`: its local ID is one
      less than some 29-bit value, wrapping for 0. */
  predicate Decodable(t: TileRef)
  {
    t.localId < IdMask || t.localId == 0xFFFF_FFFF
  }

  /** Puts the flags and the local ID back into one global ID. */
  function EncodeGid(t: TileRef): (gid: bv32)
    ensures (gid & IdMask) == ((t.localId + 1) & IdMask)
  {
    ((t.localId + 1) & IdMask)
      | (if t.flipHoriz then HorizontalFlag else 0)
      | (if t.flipVert then VerticalFlag else 0)
      | (if t.flipDiag then DiagonalFlag else 0)
  }

  lemma EncodeDecode(gid: bv32)
    ensures Decodable(DecodeGid(gid))
    ensures EncodeGid(DecodeGid(gid)) == gid
  {
  }

  lemma DecodeEncode(t: TileRef)
    requires Decodable(t)
    ensures DecodeGid(EncodeGid(t)) == t
  {
  }

  /** Setting or clearing flag bits leaves the local ID alone. */
  lemma FlagsDoNotMoveLocalId(gid: bv32, flags: bv32)
    requires (flags & IdMask) == 0
    ensures DecodeGid(gid | flags).localId == DecodeGid(gid).localId
    ensures DecodeGid(gid & !flags).localId == DecodeGid(gid).localId
  {
  }

  /** The empty cell, GID 0, decodes to the largest local ID instead of an
      error, since the subtraction wraps. */
  lemma EmptyCellWraps()
    ensures DecodeGid(0) == TileRef(0xFFFF_FFFF, false, false, false)
  {
  }
}
