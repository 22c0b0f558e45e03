/** Walking the fields of a message structure (nanopb/pb_common.c:8-95). */
module PbIter {
  import opened PbSchema

  /** `(pb_size_t)-1` with 32-bit field descriptors, the data offset of a later union member. */
  const PB_SIZE_MAX := 0xFFFF_FFFF

  const POINTER_SIZE := 8

  // ----- A fresh walk to the field at `i` ------------------------------------------

  /** Bytes that the field takes in the structure. */
  function Extent(f: Field): int {
    if f.place.pointer then POINTER_SIZE
    else if f.rule.Repeated? then f.place.dataSize * f.rule.max
    else f.place.dataSize
  }

  predicate SameUnion(prev: Field, f: Field) {
    prev.rule.Oneof? && f.rule.Oneof? && f.place.dataOffset == PB_SIZE_MAX
  }

  function DataAt(fs: seq<Field>, base: int, i: nat): int
    requires i < |fs|
  {
    if i == 0 then base + fs[0].place.dataOffset
    else if SameUnion(fs[i - 1], fs[i]) then DataAt(fs, base, i - 1)
    else DataAt(fs, base, i - 1) + Extent(fs[i - 1]) + fs[i].place.dataOffset
  }

  function SizeAt(fs: seq<Field>, base: int, i: nat): int
    requires i < |fs|
  {
    if i > 0 && SameUnion(fs[i - 1], fs[i]) then SizeAt(fs, base, i - 1)
    else DataAt(fs, base, i) + fs[i].place.sizeOffset
  }

  function RequiredBefore(fs: seq<Field>, i: nat): (n: nat)
    requires i <= |fs|
    ensures n <= i
  {
    if i == 0 then 0 else RequiredBefore(fs, i - 1) + if fs[i - 1].rule.Required? then 1 else 0
  }

  predicate Matches(f: Field, tag: nat) {
    f.tag == tag && !f.place.extension
  }

  class FieldIter {
    const fields: seq<Field>
    const base: int
    var pos: nat
    var requiredIndex: nat
    var pData: int
    var pSize: int

    /** The iterator is where a fresh walk to its field would be. Only an empty list leaves
        it on the terminator. */
    ghost predicate Valid()
      reads this
    {
      if fields == [] then pos == 0 && requiredIndex == 0 && pData == base && pSize == base
      else
        && pos < |fields|
        && requiredIndex == RequiredBefore(fields, pos)
        && pData == DataAt(fields, base, pos)
        && pSize == SizeAt(fields, base, pos)
    }

    constructor (fields: seq<Field>, base: int)
      ensures Valid() && this.fields == fields && this.base == base && pos == 0
    {
      this.fields, this.base := fields, base;
      pos, requiredIndex := 0, 0;
      var dataOffset, sizeOffset := 0, 0;
      if fields != [] {
        dataOffset, sizeOffset := fields[0].place.dataOffset, fields[0].place.sizeOffset;
      }
      pData := base + dataOffset;
      pSize := base + dataOffset + sizeOffset;
    }

    method Begin() returns (any: bool)
      modifies this
      ensures Valid() && pos == 0 && any == (fields != [])
    {
      pos, requiredIndex := 0, 0;
      var dataOffset, sizeOffset := 0, 0;
      if fields != [] {
        dataOffset, sizeOffset := fields[0].place.dataOffset, fields[0].place.sizeOffset;
      }
      pData := base + dataOffset;
      pSize := pData + sizeOffset;
      any := fields != [];
    }

    method Next() returns (more: bool)
      requires Valid()
      modifies this
      ensures Valid()
      ensures more == (old(pos) + 1 < |fields|)
      ensures pos == if more then old(pos) + 1 else 0
    {
      if fields == [] {
        return false;
      }
      var prev := fields[pos];
      pos := pos + 1;
      if pos == |fields| {
        var any := Begin();
        return false;
      }
      var field := fields[pos];
      var prevSize: int := prev.place.dataSize;
      if prev.rule.Oneof? && field.rule.Oneof? && field.place.dataOffset == PB_SIZE_MAX {
        return true;
      } else if !prev.place.pointer && prev.rule.Repeated? {
        prevSize := prevSize * prev.rule.max;
      } else if prev.place.pointer {
        prevSize := POINTER_SIZE;
      }
      if prev.rule.Required? {
        requiredIndex := requiredIndex + 1;
      }
      pData := pData + prevSize + field.place.dataOffset;
      pSize := pData + field.place.sizeOffset;
      return true;
    }

    /** Searches from the current field around to it again; the fields looked at are the ones
        that `Around` gives for 0, 1, 2 and so on up to `steps`, or all of them. */
    method Find(tag: nat) returns (found: bool, ghost steps: nat)
      requires Valid()
      modifies this
      ensures Valid()
      ensures fields == [] ==> found == (tag == 0)
      ensures fields != [] ==> found == exists i :: 0 <= i < |fields| && Matches(fields[i], tag)
      ensures fields != [] && found ==> Matches(fields[pos], tag)
      ensures fields != [] && found ==> steps < |fields| && pos == Around(old(pos), steps, |fields|)
      ensures fields != [] && found ==>
        forall k :: 0 <= k < steps ==> !Matches(fields[Around(old(pos), k, |fields|)], tag)
      ensures !found ==> pos == old(pos)
    {
      var start := pos;
      steps := 0;
      if fields == [] {
        return tag == 0, 0;
      }
      ghost var n := |fields|;
      while true
        invariant Valid() && n == |fields| && start < n && steps < n
        invariant pos == Around(start, steps, n)
        invariant forall k :: 0 <= k < steps ==> !Matches(fields[Around(start, k, n)], tag)
        decreases n - steps
      {
        if Matches(fields[pos], tag) {
          return true, steps;
        }
        var more := Next();
        if pos == start {
          forall i | 0 <= i < n
            ensures !Matches(fields[i], tag)
          {
            assert i == Around(start, if i >= start then i - start else i + n - start, n);
          }
          return false, steps;
        }
        steps := steps + 1;
      }
    }
  }

  /** The position `k` steps after `start`, going around. */
  function Around(start: nat, k: nat, n: nat): (i: nat)
    requires start < n && k < n
    ensures i < n
  {
    if start + k < n then start + k else start + k - n
  }

  // ----- Where the members really are ------------------------------------------------

  /** A member of the C structure, and the variable that holds its count, flag or union tag. */
  datatype Member = Member(offset: nat, extent: nat, sizeVar: int)

  /** The descriptors that the generator's macros produce for a structure. */
  predicate Describes(fs: seq<Field>, layout: seq<Member>) {
    && |fs| == |layout|
    && forall i :: 0 <= i < |fs| ==> DescribesMember(fs, layout, i)
  }

  predicate DescribesMember(fs: seq<Field>, layout: seq<Member>, i: nat)
    requires |fs| == |layout| && i < |fs|
  {
    && layout[i].extent == Extent(fs[i])
    && (if i > 0 && SameUnion(fs[i - 1], fs[i]) then
          layout[i].offset == layout[i - 1].offset && layout[i].sizeVar == layout[i - 1].sizeVar
        else
          && fs[i].place.sizeOffset == layout[i].sizeVar - layout[i].offset
          && fs[i].place.dataOffset ==
             layout[i].offset - if i == 0 then 0 else layout[i - 1].offset + layout[i - 1].extent)
  }

  /** The walk that adds up relative offsets arrives at each member and its size variable. */
  lemma {:induction false} WalkReachesMember(fs: seq<Field>, layout: seq<Member>, base: int, i: nat)
    requires Describes(fs, layout) && i < |fs|
    ensures DataAt(fs, base, i) == base + layout[i].offset
    ensures SizeAt(fs, base, i) == base + layout[i].sizeVar
  {
    assert DescribesMember(fs, layout, i);
    if i > 0 {
      WalkReachesMember(fs, layout, base, i - 1);
      assert DescribesMember(fs, layout, i - 1);
    }
  }
}
