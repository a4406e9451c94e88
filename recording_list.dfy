/**
 * The recording-device combo box: how MainForm.AddRecordingDevices merges the
 * capture devices of the audio system into it and which entry it selects.
 */
module RecordingList {
  import opened ItemCollections

  /**
   * An audio endpoint as the combo box holds it. Two entries are the same item
   * when they are equal as values; the default device is recognised by DeviceID.
   */
  datatype RecordingDevice = RecordingDevice(handle: nat, deviceId: string)

  /** The combo box: its items and SelectedIndex (-1 when nothing is selected). */
  datatype RecordingState = RecordingState(items: seq<RecordingDevice>, selected: int)

  /**
   * The foreach of AddRecordingDevices: each device that is not listed yet is
   * added, and selects its own new index when it has the default's DeviceID.
   */
  function Merged(s: RecordingState, devices: seq<RecordingDevice>, defaultId: string): RecordingState
    decreases |devices|
  {
    if devices == [] then s
    else
      var d := devices[0];
      if d in s.items then Merged(s, devices[1..], defaultId)
      else Merged(RecordingState(s.items + [d], if d.deviceId == defaultId then |s.items| else s.selected),
                  devices[1..], defaultId)
  }

  /** One iteration of the foreach over devices. */
  lemma MergedStep(s: RecordingState, devices: seq<RecordingDevice>, defaultId: string, k: nat)
    requires k < |devices|
    ensures Merged(s, devices[k..], defaultId) ==
      var d := devices[k];
      if d in s.items then Merged(s, devices[k + 1..], defaultId)
      else Merged(RecordingState(s.items + [d], if d.deviceId == defaultId then |s.items| else s.selected),
                  devices[k + 1..], defaultId)
  {
  }

  /** The items after the merge: the missing devices appended in order. */
  lemma {:induction false} MergedItems(s: RecordingState, devices: seq<RecordingDevice>, defaultId: string)
    ensures Merged(s, devices, defaultId).items == AppendMissing(s.items, devices)
    decreases |devices|
  {
    if devices != [] {
      var d := devices[0];
      if d in s.items {
        MergedItems(s, devices[1..], defaultId);
      } else {
        MergedItems(RecordingState(s.items + [d], if d.deviceId == defaultId then |s.items| else s.selected),
                    devices[1..], defaultId);
      }
    }
  }

  /**
   * The selected index changes only to a newly added device with the default's
   * DeviceID, namely the last one added; when there is none it stays.
   */
  lemma {:induction false} MergeSelectionSpec(s: RecordingState, devices: seq<RecordingDevice>, defaultId: string)
    ensures var t := Merged(s, devices, defaultId); var m := t.items; var n := |s.items|;
      ((forall k :: n <= k < |m| ==> m[k].deviceId != defaultId) ==> t.selected == s.selected) &&
      ((exists k :: n <= k < |m| && m[k].deviceId == defaultId) ==>
        n <= t.selected < |m| && m[t.selected].deviceId == defaultId &&
        forall k :: t.selected < k < |m| ==> m[k].deviceId != defaultId)
    decreases |devices|
  {
    MergedItems(s, devices, defaultId);
    if devices != [] {
      var d := devices[0];
      if d in s.items {
        MergeSelectionSpec(s, devices[1..], defaultId);
      } else {
        var s' := RecordingState(s.items + [d], if d.deviceId == defaultId then |s.items| else s.selected);
        MergeSelectionSpec(s', devices[1..], defaultId);
        MergedItems(s', devices[1..], defaultId);
        var m := AppendMissing(s'.items, devices[1..]);
        assert m[|s.items|] == s'.items[|s.items|] == d;
      }
    }
  }

  /** A valid selection stays valid: -1 or the index of an item. */
  lemma MergedValid(s: RecordingState, devices: seq<RecordingDevice>, defaultId: string)
    requires -1 <= s.selected < |s.items|
    ensures var t := Merged(s, devices, defaultId); -1 <= t.selected < |t.items|
  {
    MergeSelectionSpec(s, devices, defaultId);
    MergedItems(s, devices, defaultId);
  }

  /**
   * The merge only appends: the old entries stay where they were, every device
   * not yet listed is added, none already listed is added again, and a list
   * without duplicates stays so.
   */
  lemma MergedDevices(items: seq<RecordingDevice>, devices: seq<RecordingDevice>)
    ensures var m := AppendMissing(items, devices);
      m[..|items|] == items &&
      (forall d :: d in m[|items|..] <==> d in devices && d !in items) &&
      (NoDuplicates(items) ==> NoDuplicates(m))
  {
    AddedMembers(items, devices);
    if NoDuplicates(items) {
      AppendMissingNoDuplicates(items, devices);
    }
  }
}
