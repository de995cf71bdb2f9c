/**
 * WDX_API::WDXBase: the host-facing side of a content plugin. It owns the
 * field table, the abort state and the ini-file name, checks field indices
 * before anything is delegated to the concrete plugin, and turns an
 * exception escaping a call into a fixed fallback result.
 */
module WdxBase {
  import opened Wrappers
  import opened ContentPlugin
  import Flags

  /** The index the host passes to ask for all flags, or to end a write batch. */
  const ALL_FIELDS: int := -1

  predicate InRange(fields: seq<Field>, index: int)
  {
    0 <= index < |fields|
  }

  /** The bitwise OR of the flags of `fields`, in table order. */
  function CombinedFlags(fields: seq<Field>): bv32
  {
    if fields == [] then 0
    else CombinedFlags(fields[..|fields| - 1]) | fields[|fields| - 1].flag
  }

  /** Extending the prefix by one field ORs that field's flag in; a zero flag changes nothing. */
  lemma CombinedFlagsStep(fields: seq<Field>, i: int)
    requires 0 <= i < |fields|
    ensures fields[i].flag != 0 ==> CombinedFlags(fields[..i + 1]) == CombinedFlags(fields[..i]) | fields[i].flag
    ensures fields[i].flag == 0 ==> CombinedFlags(fields[..i + 1]) == CombinedFlags(fields[..i])
  {
    assert fields[..i + 1][..i] == fields[..i];
  }

  /** The loop over the table that ORs every non-zero flag into the total. */
  method CombineFlags(fields: seq<Field>) returns (total: bv32)
    ensures total == CombinedFlags(fields)
  {
    total := 0;
    var i := 0;
    while i < |fields|
      invariant 0 <= i <= |fields|
      invariant total == CombinedFlags(fields[..i])
    {
      CombinedFlagsStep(fields, i);
      if fields[i].flag != 0 {
        total := total | fields[i].flag;
      }
      i := i + 1;
    }
    assert fields[..|fields|] == fields;
  }

  /** None of `bits` is set in any field's flag, checked last field first. */
  predicate AllClear(fields: seq<Field>, bits: bv32)
  {
    fields == [] ||
    (AllClear(fields[..|fields| - 1], bits) && Flags.Clear(fields[|fields| - 1].flag, bits))
  }

  /** The OR keeps a set of bits clear exactly when every flag does. */
  lemma {:induction false} CombinedFlagsClear(fields: seq<Field>, bits: bv32)
    ensures Flags.Clear(CombinedFlags(fields), bits) <==> AllClear(fields, bits)
  {
    if fields == [] {
      Flags.ZeroClear(bits);
    } else {
      var init := fields[..|fields| - 1];
      var last := fields[|fields| - 1].flag;
      CombinedFlagsClear(init, bits);
      Flags.OrClearAt(CombinedFlags(fields), CombinedFlags(init), last, bits);
      assert AllClear(fields, bits) == (AllClear(init, bits) && Flags.Clear(last, bits));
    }
  }

  /** AllClear is the field-by-field statement. */
  lemma {:induction false} AllClearMeans(fields: seq<Field>, bits: bv32)
    ensures AllClear(fields, bits) <==> forall k :: 0 <= k < |fields| ==> Flags.Clear(fields[k].flag, bits)
  {
    if fields != [] {
      var init := fields[..|fields| - 1];
      AllClearMeans(init, bits);
      assert forall k :: 0 <= k < |init| ==> init[k] == fields[k];
    }
  }

  /** A set of bits is absent from the combined flags exactly when it is absent from every field's flag. */
  lemma CombinedFlagsExactly(fields: seq<Field>, bits: bv32)
    ensures Flags.Clear(CombinedFlags(fields), bits) <==>
            forall k :: 0 <= k < |fields| ==> Flags.Clear(fields[k].flag, bits)
  {
    CombinedFlagsClear(fields, bits);
    AllClearMeans(fields, bits);
  }

  /** Every field's flag is contained in the combined flags. */
  lemma CombinedFlagsCover(fields: seq<Field>, k: int)
    requires 0 <= k < |fields|
    ensures CombinedFlags(fields) & fields[k].flag == fields[k].flag
  {
    var c := CombinedFlags(fields);
    var f := fields[k].flag;
    Flags.ClearOfComplement(c, f);
    CombinedFlagsExactly(fields, f & !c);
    Flags.CoveredIfClear(c, f);
  }

  /** What GetSupportedField reports: no more fields, or the descriptor copied to the host. */
  datatype Descriptor = NoMoreFields | Described(name: string, units: string, fieldType: FieldType)

  function DescriptorCode(d: Descriptor): (c: int)
    ensures c == FT_NOMOREFIELDS <==> d.NoMoreFields?
  {
    match d
    case NoMoreFields => FT_NOMOREFIELDS
    case Described(_, _, t) => TypeCode(t)
  }

  /**
   * SetValue as WDXBase.cpp reads when its two calls reach the base's own
   * definitions: WDXBase::OnEndOfSetValue has an empty body and
   * WDXBase::OnSetValue answers ft_nosuchfield. Both are declared `const`,
   * and both implementations declare theirs without `const`; in C++ that
   * hides the base function rather than overriding it, unless the class
   * header adds a matching virtual. The sentinel then succeeds without saving
   * anything, and every other write is refused.
   */
  function DefaultSetValue(fileName: Option<Path>, index: int): (r: SetResult)
    ensures r == SetSuccess <==> fileName.None? || index == ALL_FIELDS
    ensures r != SetSuccess ==> r == SetNoSuchField
  {
    if fileName.None? || index == ALL_FIELDS then SetSuccess else SetNoSuchField
  }

  /** Where SetValue sends a call. */
  datatype SetRoute = EndOfBatch | Reject | Delegate

  class Base {
    const fields: seq<Field>
    var aborted: bool          // m_bIsAborted
    var abortedFilename: Path  // m_sAbortedFilename
    var iniName: string        // m_IniName

    /** Not aborted implies no aborted file name is remembered. */
    ghost predicate Valid()
      reads this
    {
      !aborted ==> abortedFilename == ""
    }

    /**
     * The constructor does not initialise m_bIsAborted; its initial value is
     * therefore taken as a parameter.
     */
    constructor (fields: seq<Field>, initiallyAborted: bool)
      ensures Valid()
      ensures this.fields == fields && aborted == initiallyAborted
      ensures abortedFilename == "" && iniName == ""
    {
      this.fields := fields;
      aborted := initiallyAborted;
      abortedFilename := "";
      iniName := "";
    }

    method SetIniName(name: string)
      modifies this
      ensures GetIniName() == name
      ensures old(iniName) == name ==> unchanged(this)
      ensures aborted == old(aborted) && abortedFilename == old(abortedFilename)
    {
      if name == iniName {
        return;
      }
      iniName := name;
    }

    /** The name SetIniName stored last. */
    function GetIniName(): string
      reads this
    {
      iniName
    }

    /**
     * The descriptor of field `index`, or NoMoreFields outside the table;
     * `raised` means the copy into the host's buffers raised, which yields the
     * same fallback.
     */
    function GetSupportedField(index: int, raised: bool): (d: Descriptor)
      ensures d.NoMoreFields? <==> !InRange(fields, index) || raised
      ensures d.Described? ==>
                d.name == fields[index].name && d.units == fields[index].multChoice &&
                d.fieldType == fields[index].fieldType
    {
      if !InRange(fields, index) then NoMoreFields
      else if raised then NoMoreFields
      else Described(fields[index].name, fields[index].multChoice, fields[index].fieldType)
    }

    /**
     * The flags of field `index`; for ALL_FIELDS the OR of all flags; 0
     * (ft_nomorefields) outside the table, and 0 as well when the call raised.
     */
    method GetSupportedFieldFlags(index: int, raised: bool) returns (r: bv32)
      ensures raised ==> r == 0
      ensures !raised && index == ALL_FIELDS ==> r == CombinedFlags(fields)
      ensures !raised && index != ALL_FIELDS && !InRange(fields, index) ==> r == 0
      ensures !raised && InRange(fields, index) ==> r == fields[index].flag
    {
      if raised {
        return 0;
      }
      if index == ALL_FIELDS {
        r := CombineFlags(fields);
        return;
      }
      if !InRange(fields, index) {
        return 0;
      }
      return fields[index].flag;
    }

    /**
     * The guard of GetValue: an index outside the table is refused with
     * nothing changed; otherwise the abort state is lowered before the
     * concrete plugin's OnGetValue runs.
     */
    method GetValueGuard(index: int) returns (delegate: bool)
      modifies this
      ensures delegate == InRange(fields, index)
      ensures !delegate ==> unchanged(this)
      ensures delegate ==> !aborted && abortedFilename == "" && iniName == old(iniName)
      ensures Valid()
      requires Valid()
    {
      if !InRange(fields, index) {
        return false;
      }
      SetAborted(false);
      return true;
    }

    /**
     * The routing of SetValue: an absent file name or index -1 ends the batch
     * (checked first), another index outside the table is refused, and the
     * rest goes to the concrete plugin's OnSetValue.
     */
    function SetValueRoute(fileName: Option<Path>, index: int): (r: SetRoute)
      ensures r == EndOfBatch <==> fileName.None? || index == ALL_FIELDS
      ensures r == Reject <==> fileName.Some? && index != ALL_FIELDS && !InRange(fields, index)
      ensures r == Delegate ==> InRange(fields, index)
    {
      if fileName.None? || index == ALL_FIELDS then EndOfBatch
      else if !InRange(fields, index) then Reject
      else Delegate
    }

    /** The host's abort hint: remember the file name, then raise the flag. */
    method StopGetValue(fileName: Path)
      modifies this
      ensures IsAborted() && GetAbortedFilename() == fileName && GetIniName() == old(GetIniName())
      ensures Valid()
    {
      SetAbortedFilename(fileName);
      SetAborted(true);
    }

    /** Lowering the flag also forgets the aborted file name. */
    method SetAborted(value: bool)
      modifies this
      ensures IsAborted() == value
      ensures GetAbortedFilename() == if value then old(GetAbortedFilename()) else ""
      ensures GetIniName() == old(GetIniName())
      ensures old(Valid()) ==> Valid()
      ensures !value ==> Valid()
    {
      aborted := value;
      if !aborted {
        SetAbortedFilename("");
      }
    }

    /** The abort flag StopGetValue raises and GetValue lowers. */
    function IsAborted(): (r: bool)
      reads this
      ensures Valid() && !r ==> abortedFilename == ""
    {
      aborted
    }

    /** Sets the name alone; on its own it can break Valid(), which is why StopGetValue raises the flag next. */
    method SetAbortedFilename(value: Path)
      modifies this
      ensures GetAbortedFilename() == value
      ensures IsAborted() == old(IsAborted()) && GetIniName() == old(GetIniName())
    {
      abortedFilename := value;
    }

    /** The file name StopGetValue remembered; "" whenever the flag is down in a Valid() state. */
    function GetAbortedFilename(): (r: Path)
      reads this
      ensures Valid() && r != "" ==> aborted
    {
      abortedFilename
    }
  }
}
