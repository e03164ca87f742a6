/**
 Copying a boot image between flash slots block by block (copy_image_to_slot in the MCUboot
 integration tests).  The header is left erased so that it can be programmed afterwards;
 programming flash clears bits and never sets them, so that matters.
 */
module FlashCopy {
  import opened Common
  import opened Bytes

  const BLOCK_SIZE: nat := 256
  const HEADER_SIZE: nat := 32
  const ERASED: byte := 0xFF

  /** Programming a byte: only bits that are still set can be cleared. */
  function Programmed(old': byte, new': byte): byte {
    ((old' as bv8) & (new' as bv8)) as byte
  }

  lemma ProgramErased(x: byte)
    ensures Programmed(ERASED, x) == x
  {
    assert (0xFF as bv8) & (x as bv8) == x as bv8;
  }

  /** Bytes programmed over others. */
  function Overlaid(olds: seq<byte>, news: seq<byte>): (s: seq<byte>)
    requires |olds| == |news|
    ensures |s| == |news|
  {
    seq(|news|, i requires 0 <= i < |news| => Programmed(olds[i], news[i]))
  }

  lemma OverlaidErased(olds: seq<byte>, news: seq<byte>)
    requires |olds| == |news| && AllErased(olds)
    ensures Overlaid(olds, news) == news
  {
    forall i | 0 <= i < |news| ensures Overlaid(olds, news)[i] == news[i] {
      ProgramErased(news[i]);
    }
  }

  /** Bytes `part` in place of those at `at`. */
  lemma Joined(now: seq<byte>, was: seq<byte>, at: nat, part: seq<byte>)
    requires |now| == |was| && at + |part| <= |was|
    requires forall j :: 0 <= j < at || at + |part| <= j < |was| ==> now[j] == was[j]
    requires forall j :: at <= j < at + |part| ==> now[j] == part[j - at]
    ensures now == was[..at] + part + was[at + |part|..]
  {
  }

  ghost predicate AllErased(s: seq<byte>) {
    forall i :: 0 <= i < |s| ==> s[i] == ERASED
  }

  /** A flash area; an access outside it is refused, and any access may fail. */
  class Area {
    const data: array<byte>
    var users: int

    constructor (size: nat)
      ensures fresh(data) && data.Length == size && users == 0
    {
      data := new byte[size](_ => ERASED);
      users := 0;
    }

    /** flash_area_open; `users` counts what has not been closed again. */
    method Open(fault: bool) returns (rc: int)
      modifies this`users
      ensures rc == 0 <==> !fault
      ensures users == old(users) + if rc == 0 then 1 else 0
    {
      rc := if fault then 1 else 0;
      if rc == 0 {
        users := users + 1;
      }
    }

    method Close()
      modifies this`users
      ensures users == old(users) - 1
    {
      users := users - 1;
    }

    method Erase(fault: bool) returns (rc: int)
      modifies data
      ensures rc == 0 <==> !fault
      ensures rc == 0 ==> AllErased(data[..])
      ensures rc != 0 ==> data[..] == old(data[..])
    {
      if fault {
        return 1;
      }
      for i := 0 to data.Length
        invariant forall j :: 0 <= j < i ==> data[j] == ERASED
      {
        data[i] := ERASED;
      }
      return 0;
    }

    method ReadBlock(at: nat, len: nat, fault: bool) returns (rc: int, block: seq<byte>)
      ensures rc == 0 <==> !fault && at + len <= data.Length
      ensures rc == 0 ==> block == data[at..at + len]
    {
      if fault || at + len > data.Length {
        return 1, [];
      }
      return 0, data[at..at + len];
    }

    /** `clean` says that every byte programmed was erased. */
    method Program(at: nat, block: seq<byte>, fault: bool) returns (rc: int, ghost clean: bool)
      modifies data
      ensures rc == 0 <==> !fault && at + |block| <= data.Length
      ensures rc != 0 ==> data[..] == old(data[..])
      ensures rc == 0 ==>
                var olds := old(data[at..at + |block|]);
                && data[..] == old(data[..at]) + Overlaid(olds, block) + old(data[at + |block|..])
                && clean == AllErased(olds) && (clean ==> Overlaid(olds, block) == block)
    {
      clean := true;
      if fault || at + |block| > data.Length {
        return 1, clean;
      }
      ghost var olds := data[at..at + |block|];
      clean := AllErased(olds);
      if clean {
        OverlaidErased(olds, block);
      }
      for i := 0 to |block|
        invariant forall j :: 0 <= j < at || at + i <= j < data.Length ==> data[j] == old(data[j])
        invariant forall j :: at <= j < at + i ==> data[j] == Overlaid(olds, block)[j - at]
      {
        assert data[at + i] == olds[i];
        data[at + i] := Programmed(data[at + i], block[i]);
      }
      Joined(data[..], old(data[..]), at, Overlaid(olds, block));
      return 0, clean;
    }
  }

  function Min(a: nat, b: nat): nat {
    if a > b then b else a
  }

  /** Header erased, the bytes behind it up to `upTo` those of the source, the rest erased. */
  ghost predicate CopiedUpTo(dst: seq<byte>, src: seq<byte>, upTo: nat)
    requires upTo <= |src| && upTo <= |dst|
  {
    && (forall j :: 0 <= j < |dst| && (j < HEADER_SIZE || j >= upTo) ==> dst[j] == ERASED)
    && (forall j :: HEADER_SIZE <= j < upTo ==> dst[j] == src[j])
  }

  /**
   copy_image_to_slot.  `faults` decides which flash accesses fail.  `clean` says that only erased
   bytes were programmed.  Whatever happens, both areas are closed again.
   */
  method CopyImage(src: Area, dst: Area, srcFault: bool, dstFault: bool, faults: nat -> bool)
    returns (rc: int, ghost clean: bool, ghost last: nat)
    requires src != dst && src.data != dst.data
    requires src.data.Length <= SIZE_MAX && dst.data.Length <= SIZE_MAX
    modifies src`users, dst`users, dst.data
    ensures src.users == old(src.users) && dst.users == old(dst.users)
    ensures srcFault || dstFault ==> rc != 0 && dst.data[..] == old(dst.data[..])
    ensures var size := Min(src.data.Length, dst.data.Length);
            && (rc == 0 ==> && size >= 256 && clean && last <= 256
                            && CopiedUpTo(dst.data[..], src.data[..], size)
                            && dst.data[32..size] == src.data[32..size]
                            && (forall j :: 0 <= j < dst.data.Length && (j < 32 || j >= size) ==> dst.data[j] == 0xFF))
            && (!srcFault && !dstFault && (forall k :: !faults(k)) ==> (rc == 0 <==> size >= 256))
  {
    clean, last := true, 0;
    rc := src.Open(srcFault);
    if rc != 0 {
      return;
    }
    rc := dst.Open(dstFault);
    if rc != 0 {
      src.Close();
      return;
    }
    rc, clean, last := CopyOpened(src, dst, faults);
    src.Close();
    dst.Close();
  }

  /**
   The erase and the copy.  The loop bound is a size_t subtraction that wraps when the smaller
   slot is below one block; then the first access is outside a slot.
   */
  method CopyOpened(src: Area, dst: Area, faults: nat -> bool) returns (rc: int, ghost clean: bool, ghost last: nat)
    requires src.data != dst.data && src.data.Length <= SIZE_MAX && dst.data.Length <= SIZE_MAX
    modifies dst.data
    ensures var size := Min(src.data.Length, dst.data.Length);
            && (rc == 0 ==> && size >= BLOCK_SIZE && clean && last <= BLOCK_SIZE
                            && CopiedUpTo(dst.data[..], src.data[..], size))
            && ((forall k :: !faults(k)) ==> (rc == 0 <==> size >= BLOCK_SIZE))
  {
    clean, last := true, 0;
    rc := dst.Erase(faults(0));
    if rc != 0 {
      return;
    }
    var size := Min(src.data.Length, dst.data.Length);
    var limit := Unsigned(size - BLOCK_SIZE);
    var idx: nat := HEADER_SIZE;
    ghost var c;
    while idx < limit
      invariant clean
      invariant HEADER_SIZE <= idx && (size < BLOCK_SIZE ==> idx == HEADER_SIZE)
      invariant size >= BLOCK_SIZE ==> idx <= size && CopiedUpTo(dst.data[..], src.data[..], idx)
      decreases SIZE_MAX - idx
    {
      rc, c := CopyBlock(src, dst, idx, BLOCK_SIZE, faults(2 * idx + 1), faults(2 * idx + 2));
      if rc != 0 {
        return;
      }
      clean := clean && c;
      idx := idx + BLOCK_SIZE;
    }
    last := size - idx;
    rc, c := CopyBlock(src, dst, idx, size - idx, faults(2 * idx + 1), faults(2 * idx + 2));
    clean := clean && (rc == 0 ==> c);
  }

  /** One read and one write of `len` bytes at `idx`. */
  method CopyBlock(src: Area, dst: Area, idx: nat, len: nat, readFault: bool, writeFault: bool)
    returns (rc: int, ghost clean: bool)
    requires src.data != dst.data && HEADER_SIZE <= idx
    requires var size := Min(src.data.Length, dst.data.Length);
             idx + len <= size ==> CopiedUpTo(dst.data[..], src.data[..], idx)
    modifies dst.data
    ensures rc == 0 <==> !readFault && !writeFault && idx + len <= Min(src.data.Length, dst.data.Length)
    ensures rc == 0 ==> clean && CopiedUpTo(dst.data[..], src.data[..], idx + len)
  {
    clean := true;
    var block;
    rc, block := src.ReadBlock(idx, len, readFault);
    if rc != 0 {
      return;
    }
    ghost var before := dst.data[..];
    rc, clean := dst.Program(idx, block, writeFault);
    if rc == 0 {
      assert AllErased(before[idx..idx + len]);
    }
  }

  /** write_image_header, on a slot of any content.  When the write fails, the area is left open. */
  method WriteImageHeader(dst: Area, header: seq<byte>, openFault: bool, fault: bool)
    returns (rc: int, ghost clean: bool)
    requires |header| == HEADER_SIZE
    modifies dst`users, dst.data
    ensures rc == 0 <==> !openFault && !fault && HEADER_SIZE <= dst.data.Length
    ensures rc != 0 ==> dst.data[..] == old(dst.data[..])
    ensures dst.users == old(dst.users) + if !openFault && rc != 0 then 1 else 0
    ensures rc == 0 ==>
              && clean == AllErased(old(dst.data[..HEADER_SIZE]))
              && dst.data[..] == WithHeader(old(dst.data[..]), header)
  {
    clean := true;
    rc := dst.Open(openFault);
    if rc != 0 {
      return;
    }
    rc, clean := dst.Program(0, header, fault);
    if rc != 0 {
      return;
    }
    assert old(dst.data[..])[..HEADER_SIZE] == old(dst.data[0..HEADER_SIZE]);
    dst.Close();
  }

  /** A slot after a header was programmed at its start. */
  function WithHeader(slot: seq<byte>, header: seq<byte>): seq<byte>
    requires |header| == HEADER_SIZE <= |slot|
  {
    Overlaid(slot[..HEADER_SIZE], header) + slot[HEADER_SIZE..]
  }

  /** After a copy the header area is erased, so the header goes in as it is, and the image stays. */
  lemma HeaderAfterCopy(slot: seq<byte>, src: seq<byte>, size: nat, header: seq<byte>)
    requires |header| == HEADER_SIZE <= size <= |src| && size <= |slot| && CopiedUpTo(slot, src, size)
    ensures var s := WithHeader(slot, header);
            && AllErased(slot[..HEADER_SIZE])
            && s[..HEADER_SIZE] == header
            && s[HEADER_SIZE..size] == src[HEADER_SIZE..size]
            && AllErased(s[size..])
  {
    OverlaidErased(slot[..HEADER_SIZE], header);
  }
}
