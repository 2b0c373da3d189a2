/** `ensureExecutePermissions`: the mode a file is given so that it can be
    executed. The `chmod` is modelled as the mode it would set. */
module ExecutePermissions {
  import opened Wrappers

  /** `0o111`: the execute bit of owner, group and others. */
  const ExecuteBits: bv32 := 0x49

  /** The new mode, or `None` when the file is left alone: an unknown
      mode, or one with some execute bit already set. */
  function EnsureExecutePermissions(mode: Option<bv32>): (r: Option<bv32>)
    ensures r.Some? <==> mode.Some? && mode.value & ExecuteBits == 0
    ensures r.Some? ==> r.value == mode.value | ExecuteBits
  {
    if mode.Some? && mode.value & ExecuteBits == 0 then Some(mode.value | ExecuteBits) else None
  }

  /** The mode the file ends up with. */
  function FinalMode(mode: Option<bv32>): Option<bv32> {
    match EnsureExecutePermissions(mode)
    case Some(m) => Some(m)
    case None => mode
  }

  /** Every execute bit is set afterwards, and nothing but execute bits is
      added or taken away. */
  lemma OnlyExecuteBitsAdded(mode: bv32)
    requires mode & ExecuteBits == 0
    ensures var m := EnsureExecutePermissions(Some(mode)).value;
      && m & ExecuteBits == ExecuteBits
      && m & !ExecuteBits == mode & !ExecuteBits
      && m != mode
  {
  }

  /** After the call a known mode always has some execute bit, and a second
      call changes nothing. */
  lemma Idempotent(mode: Option<bv32>)
    ensures mode.Some? ==> FinalMode(mode).Some? && FinalMode(mode).value & ExecuteBits != 0
    ensures EnsureExecutePermissions(FinalMode(mode)).None?
  {
    if mode.Some? && mode.value & ExecuteBits == 0 {
      OnlyExecuteBitsAdded(mode.value);
    }
  }
}
