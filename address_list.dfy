/**
 * The list of local IPv4 addresses the stream can be served on, and its
 * selection: how MainForm.AddIP4Addresses reconciles them with a fresh
 * enumeration of the machine's adapters.
 */
module AddressList {
  import opened Wrappers
  import opened ItemCollections

  type Octet = x: int | 0 <= x < 0x100

  /** An IPv4 address; two addresses are equal when their four octets are. */
  datatype IPv4Address = IPv4Address(a: Octet, b: Octet, c: Octet, d: Octet)

  /** The address combo box: its items and its selected item, if any. */
  datatype AddressState = AddressState(items: seq<IPv4Address>, selected: Option<IPv4Address>)

  /** The selected item, when there is one, is one of the items. */
  predicate SelectionValid(s: AddressState) {
    s.selected.Some? ==> s.selected.value in s.items
  }

  /**
   * The items after AddIP4Addresses: first every enumerated address that is
   * missing is appended, then every item that is not enumerated is removed.
   */
  function Reconciled(items: seq<IPv4Address>, enumerated: seq<IPv4Address>): seq<IPv4Address> {
    KeepPresent(AppendMissing(items, enumerated), enumerated)
  }

  /**
   * The selection after AddIP4Addresses. The old selection stays when it is
   * still enumerated. Otherwise the resolver's address is assigned to
   * SelectedItem: a null leaves nothing selected, and a value that is not one of
   * the items is ignored by the combo box, whose selected item has then been
   * removed.
   */
  function Reselected(previous: Option<IPv4Address>, enumerated: seq<IPv4Address>,
                      resolved: Option<IPv4Address>, items: seq<IPv4Address>): Option<IPv4Address> {
    if previous.Some? && previous.value in enumerated then previous
    else if resolved.Some? && resolved.value in items then resolved
    else None
  }

  /** AddIP4Addresses on the combo box state, given the enumeration and the resolver's answer. */
  function Refresh(s: AddressState, enumerated: seq<IPv4Address>, resolved: Option<IPv4Address>): AddressState {
    var items := Reconciled(s.items, enumerated);
    AddressState(items, Reselected(s.selected, enumerated, resolved, items))
  }

  /**
   * The surviving old items, in their old order, followed by the newly
   * enumerated addresses, in enumeration order.
   */
  lemma ReconciledShape(items: seq<IPv4Address>, enumerated: seq<IPv4Address>)
    ensures Reconciled(items, enumerated) == KeepPresent(items, enumerated) + Added(items, enumerated)
  {
    var added := Added(items, enumerated);
    KeepPresentAppend(items, added, enumerated);
    AddedMembers(items, enumerated);
    KeepPresentAll(added, enumerated);
  }

  /** After reconciliation the items are exactly the enumerated addresses, as a set. */
  lemma ReconciledMembers(items: seq<IPv4Address>, enumerated: seq<IPv4Address>)
    ensures forall x :: x in Reconciled(items, enumerated) <==> x in enumerated
  {
    AppendMissingMembers(items, enumerated);
    KeepPresentMembers(AppendMissing(items, enumerated), enumerated);
  }

  /**
   * How often an address occurs afterwards: not at all when it is not
   * enumerated, as often as before when it was already an item, once when it is
   * new (however often the enumeration repeats it).
   */
  lemma ReconciledCount(items: seq<IPv4Address>, enumerated: seq<IPv4Address>, x: IPv4Address)
    ensures multiset(Reconciled(items, enumerated))[x] ==
      if x !in enumerated then 0 else if x in items then multiset(items)[x] else 1
  {
    var added := Added(items, enumerated);
    ReconciledShape(items, enumerated);
    KeepPresentCount(items, enumerated, x);
    AddedMembers(items, enumerated);
    AddedNoDuplicates(items, enumerated);
    NoDuplicatesCount(added, x);
    assert multiset(KeepPresent(items, enumerated) + added) == multiset(KeepPresent(items, enumerated)) + multiset(added);
  }

  /** A list without duplicates stays without duplicates. */
  lemma ReconciledNoDuplicates(items: seq<IPv4Address>, enumerated: seq<IPv4Address>)
    requires NoDuplicates(items)
    ensures NoDuplicates(Reconciled(items, enumerated))
  {
    ReconciledShape(items, enumerated);
    KeepPresentNoDuplicates(items, enumerated);
    KeepPresentMembers(items, enumerated);
    AddedNoDuplicates(items, enumerated);
    AddedMembers(items, enumerated);
    NoDuplicatesConcat(KeepPresent(items, enumerated), Added(items, enumerated));
  }

  /** Reconciled items are a fixed point: a second pass changes nothing. */
  lemma ReconciledIdempotent(items: seq<IPv4Address>, enumerated: seq<IPv4Address>)
    ensures Reconciled(Reconciled(items, enumerated), enumerated) == Reconciled(items, enumerated)
  {
    var r := Reconciled(items, enumerated);
    ReconciledMembers(items, enumerated);
    AppendMissingPresent(r, enumerated);
    KeepPresentAll(r, enumerated);
  }

  /**
   * The selection is never stale: it is kept when it is still enumerated;
   * otherwise it is the resolver's address when that is enumerated, and nothing
   * when it is not.
   */
  lemma RefreshSelection(s: AddressState, enumerated: seq<IPv4Address>, resolved: Option<IPv4Address>)
    ensures var t := Refresh(s, enumerated, resolved);
      SelectionValid(t) &&
      (s.selected.Some? && s.selected.value in enumerated ==> t.selected == s.selected) &&
      (!(s.selected.Some? && s.selected.value in enumerated) ==>
        t.selected == if resolved.Some? && resolved.value in enumerated then resolved else None)
  {
    ReconciledMembers(s.items, enumerated);
  }

  /** Refreshing twice with the same enumeration and resolver answer changes nothing the second time. */
  lemma RefreshIdempotent(s: AddressState, enumerated: seq<IPv4Address>, resolved: Option<IPv4Address>)
    ensures Refresh(Refresh(s, enumerated, resolved), enumerated, resolved) == Refresh(s, enumerated, resolved)
  {
    ReconciledIdempotent(s.items, enumerated);
    ReconciledMembers(s.items, enumerated);
  }

  /** No adapter enumerated: the list empties and nothing is selected. */
  lemma RefreshEmpty(s: AddressState, resolved: Option<IPv4Address>)
    ensures Refresh(s, [], resolved) == AddressState([], None)
  {
    KeepPresentNone(s.items);
  }

  /**
   * Scenario: 10.0.0.2 listed and selected, then only 10.0.0.5 is
   * enumerated and the resolver answers 10.0.0.5.
   */
  lemma StaleSelectionScenario()
    ensures var was, now := IPv4Address(10, 0, 0, 2), IPv4Address(10, 0, 0, 5);
      Refresh(AddressState([was], Some(was)), [now], Some(now)) == AddressState([now], Some(now))
  {
    var was, now := IPv4Address(10, 0, 0, 2), IPv4Address(10, 0, 0, 5);
    assert AppendMissing([was], [now]) == [was, now];
    assert KeepPresent([was, now], [now]) == [now];
  }
}
