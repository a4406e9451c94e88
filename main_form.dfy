/**
 * The state of the main window that its public setters change, and those
 * setters. Every call is taken to run on the window's own thread already; once
 * the window is disposed, the guarded setters return without doing anything.
 */
module MainFormModel {
  import opened Wrappers
  import opened DevicePanel
  import opened AddressList
  import opened RecordingList
  import opened LogText
  import ItemCollections

  /** Synchronised playback is offered when more than one device is known. */
  function DoSyncDevices(deviceCount: nat): bool {
    deviceCount > 1
  }

  /** No device or one device: no sync; two devices: sync. */
  lemma DoSyncDevicesThreshold()
    ensures !DoSyncDevices(0) && !DoSyncDevices(1) && DoSyncDevices(2)
  {
  }

  /** Once offered, sync stays offered as devices are added. */
  lemma DoSyncDevicesMonotone(m: nat, n: nat)
    requires m <= n
    ensures DoSyncDevices(m) ==> DoSyncDevices(n)
  {
  }

  class MainForm {
    /** Control.IsDisposed. */
    var disposed: bool
    /** pnlDevices.Controls, in child order. */
    var deviceControls: seq<Control>
    /** trbLag.Value. */
    var lagValue: int
    /** chkHook.Checked. */
    var useShortCuts: bool
    /** textLog.Text. */
    var transcript: string
    /** labelPingPong.Text. */
    var keepAliveLabel: string
    /** cmbRecordingDevice.Items. */
    var recordingDevices: seq<RecordingDevice>
    /** cmbRecordingDevice.SelectedIndex; -1 when nothing is selected. */
    var recordingSelected: int
    /** cmbIP4AddressUsed.Items. */
    var addresses: seq<IPv4Address>
    /** cmbIP4AddressUsed.SelectedItem. */
    var addressSelected: Option<IPv4Address>

    /** The combo boxes' selections refer to their own items. */
    ghost predicate Valid()
      reads this
    {
      -1 <= recordingSelected < |recordingDevices| &&
      SelectionValid(AddressState(addresses, addressSelected))
    }

    /** A freshly built window: empty panel, lists and log, nothing selected. */
    constructor ()
      ensures Valid() && !disposed
      ensures deviceControls == [] && transcript == [] && keepAliveLabel == []
      ensures recordingDevices == [] && recordingSelected == -1
      ensures addresses == [] && addressSelected == None
      ensures lagValue == 0 && !useShortCuts
    {
      disposed := false;
      deviceControls := [];
      lagValue := 0;
      useShortCuts := false;
      transcript := [];
      keepAliveLabel := [];
      recordingDevices := [];
      recordingSelected := -1;
      addresses := [];
      addressSelected := None;
    }

    /** Disposal, inherited from Form; it is never undone. */
    method Dispose()
      modifies this`disposed
      ensures disposed
    {
      disposed := true;
    }

    /**
     * Adds a control for the device at the end of the panel, then moves it in
     * front of the first device control whose name is ordinally greater.
     */
    method AddDevice(device: Device)
      modifies this`deviceControls
      ensures disposed ==> deviceControls == old(deviceControls)
      ensures !disposed ==> deviceControls == Inserted(old(deviceControls), device)
    {
      if disposed { return; }
      ghost var before := deviceControls;
      var control := ControlFor(device);
      deviceControls := deviceControls + [control];
      var name := device.friendlyName;
      var i := 0;
      while i < |deviceControls| - 1
        invariant 0 <= i <= |deviceControls| - 1
        invariant deviceControls == before + [control]
        invariant forall j :: 0 <= j < i ==> !SortsAfter(before[j], name)
      {
        if deviceControls[i].DeviceControl? {
          var other := deviceControls[i].name;
          if Ordinal.CompareOrdinal(name, other) < 0 {
            assert SortsAfter(before[i], name);
            assert InsertPosition(before, name) == i;
            deviceControls := SetChildIndex(deviceControls, |deviceControls| - 1, i);
            assert deviceControls == Inserted(before, device);
            return;
          }
        }
        i := i + 1;
      }
      assert InsertPosition(before, name) == |before|;
    }

    /** Moves the lag slider. */
    method SetLagValue(lag: int)
      modifies this`lagValue
      ensures lagValue == if disposed then old(lagValue) else lag
    {
      if disposed { return; }
      lagValue := lag;
    }

    /** Ticks or clears the keyboard-shortcut box. */
    method SetKeyboardHooks(enabled: bool)
      modifies this`useShortCuts
      ensures useShortCuts == if disposed then old(useShortCuts) else enabled
    {
      if disposed { return; }
      useShortCuts := enabled;
    }

    /**
     * A keep-alive message only refreshes the keep-alive label with the current
     * time (now, the clock's long time string); any other message is appended to
     * the transcript followed by a blank line. The transcript only grows.
     */
    method Log(message: string, now: string)
      modifies this`transcript, this`keepAliveLabel
      ensures disposed ==> transcript == old(transcript) && keepAliveLabel == old(keepAliveLabel)
      ensures !disposed && IsKeepAlive(message) ==>
        transcript == old(transcript) && keepAliveLabel == KeepAliveCaption + now
      ensures !disposed && !IsKeepAlive(message) ==>
        transcript == old(transcript) + message + Separator && keepAliveLabel == old(keepAliveLabel)
      ensures old(transcript) <= transcript
    {
      if disposed { return; }
      if Contains(message, PongMarker) || Contains(message, PingMarker) {
        keepAliveLabel := KeepAliveCaption + now;
      } else {
        transcript := transcript + (message + Separator);
      }
    }

    /**
     * Adds each capture device that is not listed yet; a newly added device
     * with the default device's DeviceID becomes the selected entry.
     */
    method AddRecordingDevices(devices: seq<RecordingDevice>, defaultDevice: RecordingDevice)
      requires Valid()
      modifies this`recordingDevices, this`recordingSelected
      ensures disposed ==> recordingDevices == old(recordingDevices) && recordingSelected == old(recordingSelected)
      ensures !disposed ==> (RecordingState(recordingDevices, recordingSelected)
        == Merged(RecordingState(old(recordingDevices), old(recordingSelected)), devices, defaultDevice.deviceId))
      ensures Valid()
    {
      if disposed { return; }
      ghost var start := RecordingState(recordingDevices, recordingSelected);
      var k := 0;
      while k < |devices|
        invariant 0 <= k <= |devices|
        invariant Merged(RecordingState(recordingDevices, recordingSelected), devices[k..], defaultDevice.deviceId)
          == Merged(start, devices, defaultDevice.deviceId)
      {
        var device := devices[k];
        MergedStep(RecordingState(recordingDevices, recordingSelected), devices, defaultDevice.deviceId, k);
        if device !in recordingDevices {
          recordingDevices := recordingDevices + [device];
          var index := |recordingDevices| - 1;
          if device.deviceId == defaultDevice.deviceId {
            recordingSelected := index;
          }
        }
        k := k + 1;
      }
      MergedValid(start, devices, defaultDevice.deviceId);
    }

    /** The selected capture device, or none when the window is disposed or nothing is selected. */
    function GetRecordingDevice(): (r: Option<RecordingDevice>)
      reads this
      requires Valid()
      ensures r.Some? <==> !disposed && recordingSelected >= 0
      ensures r.Some? ==> r.value == recordingDevices[recordingSelected]
    {
      if disposed then None
      else if |recordingDevices| > 0 && recordingSelected >= 0 then Some(recordingDevices[recordingSelected])
      else None
    }

    /**
     * Reconciles the address list with the enumerated adapter addresses and, when
     * the old selection is gone, selects the resolver's default address. There is
     * no disposal check here.
     */
    method AddIP4Addresses(enumerated: seq<IPv4Address>, resolved: Option<IPv4Address>)
      requires Valid()
      modifies this`addresses, this`addressSelected
      ensures AddressState(addresses, addressSelected)
        == Refresh(AddressState(old(addresses), old(addressSelected)), enumerated, resolved)
      ensures Valid()
    {
      var oldAddressUsed := addressSelected;
      var k := 0;
      while k < |enumerated|
        invariant 0 <= k <= |enumerated|
        invariant addressSelected == oldAddressUsed
        invariant ItemCollections.AppendMissing(addresses, enumerated[k..])
          == ItemCollections.AppendMissing(old(addresses), enumerated)
      {
        ItemCollections.AppendMissingStep(addresses, enumerated, k);
        if ItemCollections.IndexOf(addresses, enumerated[k]) < 0 {
          addresses := addresses + [enumerated[k]];
        }
        k := k + 1;
      }
      ghost var merged := addresses;
      var i := |addresses|;
      while i > 0
        invariant 0 <= i <= |merged|
        invariant addressSelected == oldAddressUsed
        invariant addresses == merged[..i] + ItemCollections.KeepPresent(merged[i..], enumerated)
      {
        i := i - 1;
        ItemCollections.RemoveStep(merged, enumerated, i, addresses);
        if addresses[i] !in enumerated {
          addresses := addresses[..i] + addresses[i + 1..];
        }
      }
      assert merged[0..] == merged;
      assert addresses == Reconciled(old(addresses), enumerated);
      if !(oldAddressUsed.Some? && oldAddressUsed.value in enumerated) {
        addressSelected := if resolved.Some? && resolved.value in addresses then resolved else None;
      }
      RefreshSelection(AddressState(old(addresses), old(addressSelected)), enumerated, resolved);
    }
  }
}
