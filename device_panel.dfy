/**
 * The panel of device buttons: its children in display order, and where
 * MainForm.AddDevice puts a new device control so that device names stay in
 * ordinal order.
 */
module DevicePanel {
  import opened Ordinal

  /** A discovered cast device as the form sees it: identity, friendly name, state code. */
  datatype Device = Device(id: nat, friendlyName: Utf16, state: nat)

  /**
   * A child of the device panel: a device control showing one device's name and
   * status, or any other control the panel holds.
   */
  datatype Control =
    | DeviceControl(device: nat, name: Utf16, status: nat)
    | OtherControl(tag: nat)

  /** The control AddDevice builds for a device: its name and current status. */
  function ControlFor(d: Device): Control {
    DeviceControl(d.id, d.friendlyName, d.state)
  }

  /** c is a device control whose name is ordinally greater than name. */
  predicate SortsAfter(c: Control, name: Utf16) {
    c.DeviceControl? && CompareOrdinal(name, c.name) < 0
  }

  /**
   * Where the sort loop moves the new control: the first child that is a device
   * control with a greater name, or the end. Other controls and equal names are
   * passed over.
   */
  function InsertPosition(cs: seq<Control>, name: Utf16): (p: nat)
    ensures p <= |cs|
    ensures forall j :: 0 <= j < p ==> !SortsAfter(cs[j], name)
    ensures p < |cs| ==> SortsAfter(cs[p], name)
  {
    if cs == [] then 0
    else if SortsAfter(cs[0], name) then 0
    else 1 + InsertPosition(cs[1..], name)
  }

  /** ControlCollection.SetChildIndex: the child at index from is taken out and put back at index to. */
  function SetChildIndex(cs: seq<Control>, from: nat, to: nat): (r: seq<Control>)
    requires from < |cs| && to < |cs|
    ensures |r| == |cs| && r[to] == cs[from]
    ensures multiset(r) == multiset(cs)
  {
    var rest := cs[..from] + cs[from + 1..];
    assert cs == cs[..from] + [cs[from]] + cs[from + 1..];
    assert rest == rest[..to] + rest[to..];
    var moved := rest[..to] + [cs[from]] + rest[to..];
    assert multiset(moved) == multiset(rest[..to]) + multiset([cs[from]]) + multiset(rest[to..]);
    assert multiset(moved) == multiset(rest) + multiset([cs[from]]);
    assert multiset(cs) == multiset(rest) + multiset([cs[from]]);
    moved
  }

  /** The panel after AddDevice(d): the new control at its insert position. */
  function Inserted(cs: seq<Control>, d: Device): seq<Control> {
    var p := InsertPosition(cs, d.friendlyName);
    cs[..p] + [ControlFor(d)] + cs[p..]
  }

  /** The device controls appear in ordinal order of their names. */
  predicate DevicesSorted(cs: seq<Control>) {
    forall i, j :: 0 <= i < j < |cs| && cs[i].DeviceControl? && cs[j].DeviceControl? ==>
      CompareOrdinal(cs[i].name, cs[j].name) <= 0
  }

  /**
   * AddDevice grows the panel by exactly one control, the new one; taking it out
   * again gives back the old panel in its old order. There is no identity check:
   * a device added twice has two controls.
   */
  lemma InsertedShape(cs: seq<Control>, d: Device)
    ensures var p := InsertPosition(cs, d.friendlyName); var r := Inserted(cs, d);
      |r| == |cs| + 1 && r[p] == ControlFor(d) &&
      r[..p] + r[p + 1..] == cs &&
      multiset(r) == multiset(cs) + multiset{ControlFor(d)}
  {
  }

  /** Inserting at InsertPosition keeps a sorted panel sorted. */
  lemma InsertedSorted(cs: seq<Control>, d: Device)
    requires DevicesSorted(cs)
    ensures DevicesSorted(Inserted(cs, d))
  {
    var name := d.friendlyName;
    var p := InsertPosition(cs, name);
    var r := Inserted(cs, d);
    forall i, j | 0 <= i < j < |r| && r[i].DeviceControl? && r[j].DeviceControl?
      ensures CompareOrdinal(r[i].name, r[j].name) <= 0
    {
      if j < p {
        assert r[i] == cs[i] && r[j] == cs[j];
      } else if j == p {
        assert r[i] == cs[i] && !SortsAfter(cs[i], name);
        CompareOrdinalAntisymmetric(name, cs[i].name);
      } else if i < p {
        assert r[i] == cs[i] && r[j] == cs[j - 1];
      } else if i == p {
        assert r[j] == cs[j - 1] && SortsAfter(cs[p], name);
        if j - 1 > p {
          CompareOrdinalTransitive(name, cs[p].name, cs[j - 1].name);
        }
      } else {
        assert r[i] == cs[i - 1] && r[j] == cs[j - 1];
      }
    }
  }

  /**
   * In a sorted panel the new control lands after every device control whose
   * name is not greater (so after all equal names) and before every one whose
   * name is greater.
   */
  lemma InsertedPlacement(cs: seq<Control>, d: Device)
    requires DevicesSorted(cs)
    ensures var p := InsertPosition(cs, d.friendlyName); var r := Inserted(cs, d);
      (forall j :: 0 <= j < p && r[j].DeviceControl? ==> CompareOrdinal(r[j].name, d.friendlyName) <= 0) &&
      (forall j :: p < j < |r| && r[j].DeviceControl? ==> CompareOrdinal(d.friendlyName, r[j].name) < 0)
  {
    var name := d.friendlyName;
    var p := InsertPosition(cs, name);
    var r := Inserted(cs, d);
    forall j | 0 <= j < p && r[j].DeviceControl? ensures CompareOrdinal(r[j].name, name) <= 0 {
      assert r[j] == cs[j] && !SortsAfter(cs[j], name);
      CompareOrdinalAntisymmetric(name, cs[j].name);
    }
    forall j | p < j < |r| && r[j].DeviceControl? ensures CompareOrdinal(name, r[j].name) < 0 {
      assert r[j] == cs[j - 1] && SortsAfter(cs[p], name);
      if j - 1 > p {
        CompareOrdinalTransitive(name, cs[p].name, cs[j - 1].name);
      }
    }
  }

  /** Helper: the UTF-16 code units of an ASCII string. */
  function Ascii(s: string): Utf16
    requires forall i :: 0 <= i < |s| ==> s[i] as int < 0x80
  {
    seq(|s|, i requires 0 <= i < |s| => s[i] as int)
  }

  /** Scenario: adding "Zeta" then "Alpha" to an empty panel gives the order Alpha, Zeta. */
  lemma AlphaZetaScenario()
    ensures var zeta, alpha := Device(1, Ascii("Zeta"), 0), Device(2, Ascii("Alpha"), 0);
      Inserted(Inserted([], zeta), alpha) == [ControlFor(alpha), ControlFor(zeta)]
  {
  }
}
