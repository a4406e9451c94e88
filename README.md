# MainForm list and text logic, modelled in Dafny

This project models the parts of the ChromeCast desktop audio streamer's main
window (`MainForm`) that hold real list and string logic. The window's state
becomes the fields of a Dafny class, `MainFormModel.MainForm`:

- the panel of device buttons (`pnlDevices.Controls`) as a sequence of controls;
- the recording-device combo box (items and `SelectedIndex`);
- the IPv4-address combo box (items and `SelectedItem`);
- the log transcript and the keep-alive label;
- the lag slider, the keyboard-shortcut check box, and the disposed flag.

The public setters become methods on that class. Each one is proved against a
specification function:

- `AddDevice` appends a device control and moves it in front of the first
  device control whose name is ordinally greater (`DevicePanel.Inserted`).
  The lemmas show that the panel grows by exactly that one control and keeps
  the old order. They also show that a panel sorted by name stays sorted, and
  that the new control lands after equal names.
- `AddIP4Addresses` appends the enumerated addresses that are missing, then
  removes, back to front, every item that is not enumerated
  (`AddressList.Refresh`). It keeps the old selection only when it is still
  enumerated, and otherwise takes the default address resolver's answer. The
  lemmas show what the items become and that running it twice changes nothing.
- `AddRecordingDevices` adds the capture devices that are not listed yet. It
  selects a newly added device whose DeviceID is the default device's
  (`RecordingList.Merged`).
- `Log` routes messages that contain `"type":"PONG"` or `"type":"PING"` to
  the keep-alive label. Every other message is appended to the transcript,
  followed by `"\r\n\r\n"`.
- `DoSyncDevices` holds when the device count is greater than 1.
- Once the window is disposed, the guarded setters change nothing.
  `AddIP4Addresses` has no such guard and still runs after disposal.

Every call is taken to run on the window's own thread. The results of the
operating-system calls are parameters: the adapter enumeration
(`Network.GetIp4ddresses`), the default address (`Network.GetIp4Address`) and
the clock (`DateTime.Now.ToLongTimeString`).

Device names are sequences of UTF-16 code units, because
`string.CompareOrdinal` compares .NET strings code unit by code unit. Log
messages are Dafny strings: only concatenation and an ordinal substring search
with ASCII markers act on them. `Dispose` stands for the disposal that
`MainForm` inherits from `Form`. The constructor gives an empty window,
because the designer file that sets the initial values is not part of this
model.

Three behaviours of the code are worth stating outright:

- `AddDevice` has no identity check. Adding the same device twice gives two
  controls; there is no upsert.
- After a refresh, the resolver's address is selected only when it is one of
  the new items. The combo box ignores a `SelectedItem` value it does not
  hold, and the old selected item has already been removed. So in that case
  nothing is selected.
- `AddIP4Addresses` has no disposed check.

## Model

| member | source | states |
|---|---|---|
| Ordinal.CompareOrdinal | Source/ChromeCast.Desktop.AudioStreamer/MainForm.cs:84 | the comparison result is -1, 0 or 1, and it is 0 exactly when the two strings are equal |
| Ordinal.CompareOrdinalAntisymmetric | Source/ChromeCast.Desktop.AudioStreamer/MainForm.cs:84 | swapping the operands flips the sign of the comparison |
| Ordinal.CompareOrdinalTransitive | Source/ChromeCast.Desktop.AudioStreamer/MainForm.cs:84 | "not greater" is transitive, and strict when either step is strict |
| Ordinal.CompareOrdinalTotal | Source/ChromeCast.Desktop.AudioStreamer/MainForm.cs:84 | two different names always compare as less one way round |
| DevicePanel.InsertPosition | Source/ChromeCast.Desktop.AudioStreamer/MainForm.cs:79-89 | the insert position is the first child that is a device control with an ordinally greater name, or the end; other controls and equal names before it are passed over |
| DevicePanel.SetChildIndex | Source/ChromeCast.Desktop.AudioStreamer/MainForm.cs:86 | ControlCollection.SetChildIndex takes the child out of its index and puts it back at the new index: the panel keeps its length and its controls (a permutation), and the moved child sits at the new index |
| DevicePanel.Inserted | Source/ChromeCast.Desktop.AudioStreamer/MainForm.cs:74-89 | by definition, the panel after AddDevice: the old panel with the new device's control placed at InsertPosition (the append on line 74 followed by the move on line 86, or no move when no greater name exists) |
| DevicePanel.InsertedShape | Source/ChromeCast.Desktop.AudioStreamer/MainForm.cs:74-90 | AddDevice grows the panel by exactly one control, the new one; removing it gives back the old panel in its old order; as a multiset the panel gains exactly that control, so adding a device twice gives two entries |
| DevicePanel.InsertedSorted | Source/ChromeCast.Desktop.AudioStreamer/MainForm.cs:79-89 | if the device-control names were in ordinal order before AddDevice, they still are after it |
| DevicePanel.InsertedPlacement | Source/ChromeCast.Desktop.AudioStreamer/MainForm.cs:79-89 | in a sorted panel the new control sits after every device control whose name is not greater (all equal names included) and before every greater one |
| DevicePanel.AlphaZetaScenario | Source/ChromeCast.Desktop.AudioStreamer/MainForm.cs:74-90 | adding "Zeta" and then "Alpha" to an empty panel gives the order Alpha, Zeta |
| MainFormModel.MainForm.AddDevice | Source/ChromeCast.Desktop.AudioStreamer/MainForm.cs:61-91 | a disposed window's panel is unchanged; otherwise the panel becomes the old one with the new control at its insert position (append, scan, SetChildIndex) |
| MainFormModel.MainForm.SetLagValue | Source/ChromeCast.Desktop.AudioStreamer/MainForm.cs:124-134 | a disposed window keeps its lag value; otherwise the slider takes the new value; nothing else changes |
| MainFormModel.MainForm.SetKeyboardHooks | Source/ChromeCast.Desktop.AudioStreamer/MainForm.cs:136-146 | a disposed window keeps its check box; otherwise it takes the new value; no other modelled field changes (the CheckedChanged event that the assignment raises is listed under Left out) |
| MainFormModel.MainForm.Dispose | Source/ChromeCast.Desktop.AudioStreamer/MainForm.cs:68 | the disposal inherited from Form sets the IsDisposed state that the guards on lines 68, 100, 118, 131, 143, 171, 248 and 277 test; no method clears it again |
| MainFormModel.MainForm.Log | Source/ChromeCast.Desktop.AudioStreamer/MainForm.cs:162-186 | a disposed window changes nothing; a keep-alive message changes only the label (caption plus time); any other message is appended to the transcript followed by a blank line; the old transcript is always a prefix of the new one |
| LogText.Contains | Source/ChromeCast.Desktop.AudioStreamer/MainForm.cs:173 | by definition, string.Contains: an ordinal search for the marker starting at each position of the message in turn (tied to "occurs at some position" by ContainsOccurs) |
| LogText.IsKeepAlive | Source/ChromeCast.Desktop.AudioStreamer/MainForm.cs:173 | by definition, the condition on line 173: the message contains the "type":"PONG" marker or the "type":"PING" marker |
| LogText.ContainsOccurs | Source/ChromeCast.Desktop.AudioStreamer/MainForm.cs:173 | the substring search finds the marker exactly when it occurs at some position of the message |
| LogText.KeepAliveAnywhere | Source/ChromeCast.Desktop.AudioStreamer/MainForm.cs:173 | a PONG or PING marker anywhere in a message, whatever is around it, makes the message a keep-alive message |
| LogText.ShortMessageLogged | Source/ChromeCast.Desktop.AudioStreamer/MainForm.cs:173 | a message shorter than the markers is never treated as a keep-alive message |
| LogText.LogScenario | Source/ChromeCast.Desktop.AudioStreamer/MainForm.cs:173-181 | {"type":"PING"} is a keep-alive message; hello is not |
| MainFormModel.DoSyncDevicesThreshold | Source/ChromeCast.Desktop.AudioStreamer/MainForm.cs:231-234 | sync is not offered for 0 or 1 devices and is offered for 2 |
| MainFormModel.DoSyncDevicesMonotone | Source/ChromeCast.Desktop.AudioStreamer/MainForm.cs:231-234 | sync eligibility never turns off as the device count grows |
| MainFormModel.DoSyncDevices | Source/ChromeCast.Desktop.AudioStreamer/MainForm.cs:231-234 | by definition, the collaborator's device count is greater than 1 |
| MainFormModel.MainForm.AddRecordingDevices | Source/ChromeCast.Desktop.AudioStreamer/MainForm.cs:241-259 | a disposed window changes nothing; otherwise the items and selected index become Merged of the old ones (each device not yet listed is added, and one with the default's DeviceID is selected); the selection stays -1 or a valid index |
| RecordingList.Merged | Source/ChromeCast.Desktop.AudioStreamer/MainForm.cs:250-258 | by definition, the foreach: each device not in the items is appended and, when its DeviceID equals the default's, its new index becomes SelectedIndex; a listed device changes nothing |
| RecordingList.MergedStep | Source/ChromeCast.Desktop.AudioStreamer/MainForm.cs:250-258 | one iteration of the foreach: a device already listed changes nothing; a new one is appended and, when its DeviceID is the default's, its index becomes the selection |
| RecordingList.MergedItems | Source/ChromeCast.Desktop.AudioStreamer/MainForm.cs:250-258 | the items after the merge are the old items followed by the devices not yet listed, in order |
| RecordingList.MergedValid | Source/ChromeCast.Desktop.AudioStreamer/MainForm.cs:250-258 | a selection that is -1 or a valid index stays so |
| RecordingList.MergeSelectionSpec | Source/ChromeCast.Desktop.AudioStreamer/MainForm.cs:250-258 | the selected index changes only to the index of a newly added device whose DeviceID is the default's (the last such device); when no new device matches, it stays |
| RecordingList.MergedDevices | Source/ChromeCast.Desktop.AudioStreamer/MainForm.cs:250-258 | the merge only appends; the old entries keep their places; the devices added are exactly those not listed yet; a list without duplicates stays without duplicates |
| ItemCollections.AppendMissingNoDuplicates | Source/ChromeCast.Desktop.AudioStreamer/MainForm.cs:250-254 | adding only the missing values never creates a duplicate |
| MainFormModel.MainForm.GetRecordingDevice | Source/ChromeCast.Desktop.AudioStreamer/MainForm.cs:277-282 | the selected capture device is returned exactly when the window is not disposed and an entry is selected, and it is that entry |
| MainFormModel.MainForm.AddIP4Addresses | Source/ChromeCast.Desktop.AudioStreamer/MainForm.cs:300-326 | the address items and selection become Refresh of the old ones, whether or not the window is disposed; the selection stays one of the items |
| ItemCollections.IndexOf | Source/ChromeCast.Desktop.AudioStreamer/MainForm.cs:312 | ObjectCollection.IndexOf gives the first position that holds the value, or -1 when no item equals it; AddIP4Addresses adds an enumerated address exactly when this is negative |
| ItemCollections.AppendMissing | Source/ChromeCast.Desktop.AudioStreamer/MainForm.cs:310-314 | the foreach that adds the missing values keeps the old items as a prefix |
| ItemCollections.AppendMissingMembers | Source/ChromeCast.Desktop.AudioStreamer/MainForm.cs:310-314 | after the foreach the list holds exactly the old items and the enumerated values |
| ItemCollections.AppendMissingStep | Source/ChromeCast.Desktop.AudioStreamer/MainForm.cs:310-314 | one iteration of the foreach: the value is added only when the list does not contain it yet |
| ItemCollections.AppendMissingPresent | Source/ChromeCast.Desktop.AudioStreamer/MainForm.cs:310-314 | when every enumerated value is already listed, nothing is added |
| ItemCollections.AddedMembers | Source/ChromeCast.Desktop.AudioStreamer/MainForm.cs:310-314 | the values added are exactly the enumerated values that were not listed |
| ItemCollections.AddedNoDuplicates | Source/ChromeCast.Desktop.AudioStreamer/MainForm.cs:310-314 | each value is added at most once, even when the enumeration repeats it |
| ItemCollections.AddedOrder | Source/ChromeCast.Desktop.AudioStreamer/MainForm.cs:310-314 | the added values follow the order of their first occurrence in the enumeration |
| ItemCollections.KeepPresent | Source/ChromeCast.Desktop.AudioStreamer/MainForm.cs:315-319 | the removal loop never makes the list longer |
| ItemCollections.KeepPresentMembers | Source/ChromeCast.Desktop.AudioStreamer/MainForm.cs:315-319 | what the removal loop leaves are exactly the items that are enumerated |
| ItemCollections.RemoveStep | Source/ChromeCast.Desktop.AudioStreamer/MainForm.cs:315-319 | one backward iteration: the item at index i is removed exactly when it is not enumerated, and the items before i are untouched |
| ItemCollections.KeepPresentAppend | Source/ChromeCast.Desktop.AudioStreamer/MainForm.cs:315-319 | filtering a concatenation filters each part, so the survivors keep their relative order |
| ItemCollections.KeepPresentAll | Source/ChromeCast.Desktop.AudioStreamer/MainForm.cs:315-319 | when every item is enumerated, nothing is removed |
| ItemCollections.KeepPresentNone | Source/ChromeCast.Desktop.AudioStreamer/MainForm.cs:315-319 | an empty enumeration removes every item |
| ItemCollections.KeepPresentCount | Source/ChromeCast.Desktop.AudioStreamer/MainForm.cs:315-319 | an enumerated item keeps all its occurrences, and an item that is not enumerated keeps none |
| ItemCollections.KeepPresentNoDuplicates | Source/ChromeCast.Desktop.AudioStreamer/MainForm.cs:315-319 | removing items never creates a duplicate |
| AddressList.ReconciledShape | Source/ChromeCast.Desktop.AudioStreamer/MainForm.cs:310-319 | the new items are the surviving old items in their old order, followed by the new addresses in enumeration order |
| AddressList.Reconciled | Source/ChromeCast.Desktop.AudioStreamer/MainForm.cs:310-319 | by definition, the items after the two loops: AppendMissing of the enumeration (lines 310-314), then KeepPresent of the enumeration (lines 315-319) |
| AddressList.Reselected | Source/ChromeCast.Desktop.AudioStreamer/MainForm.cs:308-325 | by definition, the selection after line 325: the old selection when the enumeration holds it; otherwise the resolver's address when it is one of the new items; otherwise none |
| AddressList.Refresh | Source/ChromeCast.Desktop.AudioStreamer/MainForm.cs:308-325 | by definition, the whole of AddIP4Addresses on the combo box state: Reconciled items with the Reselected selection |
| AddressList.ReconciledMembers | Source/ChromeCast.Desktop.AudioStreamer/MainForm.cs:310-319 | the new items are exactly the enumerated addresses, as a set |
| AddressList.ReconciledCount | Source/ChromeCast.Desktop.AudioStreamer/MainForm.cs:310-319 | an address that is not enumerated is gone; an already-listed address occurs as often as before; a new address occurs once |
| AddressList.ReconciledNoDuplicates | Source/ChromeCast.Desktop.AudioStreamer/MainForm.cs:310-319 | an item list without duplicates stays without duplicates |
| AddressList.ReconciledIdempotent | Source/ChromeCast.Desktop.AudioStreamer/MainForm.cs:310-319 | a second pass with the same enumeration leaves the items unchanged |
| AddressList.RefreshSelection | Source/ChromeCast.Desktop.AudioStreamer/MainForm.cs:308-325 | the selection is kept when it is still enumerated; otherwise it is the resolver's address if that is enumerated, and nothing if it is not; the selection is never stale |
| AddressList.RefreshIdempotent | Source/ChromeCast.Desktop.AudioStreamer/MainForm.cs:308-325 | running AddIP4Addresses twice with the same enumeration and resolver answer changes neither the items nor the selection the second time |
| AddressList.RefreshEmpty | Source/ChromeCast.Desktop.AudioStreamer/MainForm.cs:308-325 | an empty enumeration empties the list and clears the selection |
| AddressList.StaleSelectionScenario | Source/ChromeCast.Desktop.AudioStreamer/MainForm.cs:308-325 | with 10.0.0.2 listed and selected, enumerating only 10.0.0.5 while the resolver answers 10.0.0.5 gives the items [10.0.0.5] with 10.0.0.5 selected |

## Left out

- Thread marshaling (`InvokeRequired`/`Invoke`, e.g. lines 63-67) is not modelled: every call is taken to run on the window's own thread.
- `ShowLagControl` and `ShowLog` are not modelled: they only change pixel layout and remove a tab page.
- `ToggleVisibility`, `SetWindowVisibility` and `HideWindow` are not modelled: they show and hide the window, one of them after an asynchronous `Task.Delay(1000)`.
- `MainForm_Load`, `AddressChangedCallback` and the version label are not modelled: they subscribe to the OS network-change event and read assembly metadata. The enumeration and the resolver's answer that `AddIP4Addresses` reads are parameters of the model.
- The event handlers that only forward to the application logic or the device collection are not modelled: these are volume, scan, sync, settings, clipboard, the selection-changed handlers, the lag-scroll handler (lines 188-191) and the check-changed handlers (lines 193-197, 290-293). Assigning `chkHook.Checked` in SetKeyboardHooks raises the check-changed event, and the call it forwards to `applicationLogic.OnSetHooks` is not modelled; and those collaborators are not part of this model.
- `SetAutoRestart`, `SetAutoStart` and the check-box getters are not modelled: they only copy one boolean.
- GetRecordingDevice: the cross-thread path that catches an exception and re-invokes is not modelled; only the owner-thread path is.
- AddDevice: `device.SetDeviceControl` and `SetClickCallBack` are calls into the device object, which is not part of this model. The friendly name read on lines 71 and 78 is taken to be the same value both times.
- AddIP4Addresses: line 312 compares addresses with `IndexOf` (object equality) and lines 317 and 321 compare them with `ToString`. Both are modelled as one value equality of the four octets. Adapters enter the model only through their IPv4 address.
- AddIP4Addresses: combo-box selection is modelled as the selected value. The `SelectedIndexChanged` notifications raised while items are removed are not modelled.
- AddIP4Addresses: `Items.Add` on line 313 is taken to append at the end, so the address combo box is taken to be unsorted. The combo box's Sorted property is not set in MainForm.cs. The order stated by ReconciledShape rests on this.
- AddRecordingDevices: `Items.Contains` is modelled as value equality of the device entry. The index returned by `Items.Add` is taken to be the last one, so the combo box is taken to be unsorted. A null default device, for which the source would throw, is not modelled.
- SetLagValue: does not model the exception `TrackBar.Value` throws for a value outside the slider's range, because that range is set in the designer file, which is not part of this model.
- Log: the swallowing `catch` is not modelled, because nothing the model does can fail. The label's `Update()` repaint is not modelled. The clock's long time string is a parameter.
- DoSyncDevices: the device count comes from the `IDevices` collaborator, which is not part of this model, so it is a parameter.
