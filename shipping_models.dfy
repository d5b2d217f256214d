/**
 * shipping/models.py: `Address.save`, which keeps at most one default
 * address per user by clearing the user's other defaults before the row is
 * written. The table is a class whose `Save` method is proved to perform
 * the specification function `SaveSpec`.
 */
module ShippingModels {
  import opened Wrappers

  datatype Address = Address(id: nat, user: nat, address: string, city: string, postalCode: string, country: string,
                             isDefault: bool)

  /** An `Address` instance about to be saved: `pk` is `None` for a new one. */
  datatype AddressDraft = AddressDraft(pk: Option<nat>, user: nat, address: string, city: string, postalCode: string,
                                       country: string, isDefault: bool)

  datatype AddressOutcome = AddressOutcome(saved: Address, rows: seq<Address>, nextId: nat)

  /** Table invariant: distinct keys, all below the next key the sequence hands out. */
  predicate AddressesValid(rows: seq<Address>, nextId: nat)
  {
    && (forall i, j | 0 <= i < j < |rows| :: rows[i].id != rows[j].id)
    && (forall x | x in rows :: x.id < nextId)
  }

  /** At most one default address per user. */
  predicate OneDefaultPerUser(rows: seq<Address>)
  {
    forall x, y | x in rows && y in rows && x.user == y.user && x.isDefault && y.isDefault :: x == y
  }

  /** Position of the row with primary key `id`. */
  function AddressIndex(rows: seq<Address>, id: nat): (r: Option<nat>)
    ensures r.Some? ==> r.value < |rows| && rows[r.value].id == id
    ensures r.None? <==> forall x | x in rows :: x.id != id
  {
    if rows == [] then None
    else if rows[0].id == id then Some(0)
    else match AddressIndex(rows[1..], id)
      case None => None
      case Some(k) => Some(k + 1)
  }

  /**
   * `Address.objects.filter(user=user, is_default=True).exclude(pk=pk).update(is_default=False)`;
   * `exclude(pk=None)` excludes nothing.
   */
  function ClearDefaults(rows: seq<Address>, user: nat, pk: Option<nat>): (r: seq<Address>)
    ensures |r| == |rows|
    ensures forall i | 0 <= i < |rows| :: r[i] == rows[i] || (r[i] == rows[i].(isDefault := false) && rows[i].user == user)
    ensures forall i | 0 <= i < |rows| :: rows[i].user == user && pk != Some(rows[i].id) ==> !r[i].isDefault
    ensures forall i | 0 <= i < |rows| :: rows[i].user != user || pk == Some(rows[i].id) ==> r[i] == rows[i]
  {
    if rows == [] then []
    else
      var x := rows[0];
      var head := if x.user == user && x.isDefault && pk != Some(x.id) then x.(isDefault := false) else x;
      [head] + ClearDefaults(rows[1..], user, pk)
  }

  /** `save`: clear the user's other defaults when this address is the default, then UPDATE by key or INSERT. */
  function SaveSpec(rows: seq<Address>, nextId: nat, d: AddressDraft): AddressOutcome
  {
    var cleared := if d.isDefault then ClearDefaults(rows, d.user, d.pk) else rows;
    var row := Address(d.pk.GetOr(nextId), d.user, d.address, d.city, d.postalCode, d.country, d.isDefault);
    var nextId' := if d.pk.None? then nextId + 1 else nextId;
    match AddressIndex(cleared, row.id)
    case Some(i) => AddressOutcome(row, cleared[i := row], nextId')
    case None => AddressOutcome(row, cleared + [row], nextId')
  }

  /** The written row is in the table, under its key, with the draft's fields. */
  lemma SaveWritesDraft(rows: seq<Address>, nextId: nat, d: AddressDraft)
    ensures var out := SaveSpec(rows, nextId, d);
            && out.saved in out.rows
            && out.saved.id == d.pk.GetOr(nextId) && out.saved.user == d.user && out.saved.isDefault == d.isDefault
            && out.saved.address == d.address && out.saved.city == d.city
            && out.saved.postalCode == d.postalCode && out.saved.country == d.country
  {
    var out := SaveSpec(rows, nextId, d);
    var cleared := if d.isDefault then ClearDefaults(rows, d.user, d.pk) else rows;
    match AddressIndex(cleared, out.saved.id)
    case Some(i) => assert out.rows[i] == out.saved;
    case None => assert out.rows[|cleared|] == out.saved;
  }

  /** Clearing flags moves no key. */
  lemma ClearDefaultsKeepsAddressesValid(rows: seq<Address>, nextId: nat, user: nat, pk: Option<nat>)
    requires AddressesValid(rows, nextId)
    ensures AddressesValid(ClearDefaults(rows, user, pk), nextId)
  {
    var cleared := ClearDefaults(rows, user, pk);
    assert forall i | 0 <= i < |rows| :: cleared[i].id == rows[i].id;
    forall x | x in cleared ensures x.id < nextId {
      var l :| 0 <= l < |cleared| && cleared[l] == x;
      assert rows[l] in rows;
    }
  }

  /** Rewriting a row under its own key keeps the invariant. */
  lemma RewriteKeepsAddressesValid(rows: seq<Address>, nextId: nat, i: nat, row: Address)
    requires AddressesValid(rows, nextId)
    requires i < |rows| && rows[i].id == row.id
    ensures AddressesValid(rows[i := row], nextId)
  {
    var rows' := rows[i := row];
    forall x | x in rows' ensures x.id < nextId {
      var l :| 0 <= l < |rows'| && rows'[l] == x;
      assert rows'[l].id == rows[l].id && rows[l] in rows;
    }
  }

  /** Appending a row under a new key below the next key keeps the invariant. */
  lemma AppendKeepsAddressesValid(rows: seq<Address>, nextId: nat, nextId': nat, row: Address)
    requires AddressesValid(rows, nextId) && nextId <= nextId'
    requires AddressIndex(rows, row.id).None? && row.id < nextId'
    ensures AddressesValid(rows + [row], nextId')
  {
    var rows' := rows + [row];
    forall i, j | 0 <= i < j < |rows'| ensures rows'[i].id != rows'[j].id {
      if j == |rows| {
        assert rows[i] in rows;
      }
    }
  }

  /** Saving a new address or an existing one keeps the keys distinct and below the next key. */
  lemma SaveKeepsAddressesValid(rows: seq<Address>, nextId: nat, d: AddressDraft)
    requires AddressesValid(rows, nextId)
    requires d.pk.None? || AddressIndex(rows, d.pk.value).Some?
    ensures var out := SaveSpec(rows, nextId, d);
            AddressesValid(out.rows, out.nextId)
  {
    var out := SaveSpec(rows, nextId, d);
    var cleared := if d.isDefault then ClearDefaults(rows, d.user, d.pk) else rows;
    if d.isDefault {
      ClearDefaultsKeepsAddressesValid(rows, nextId, d.user, d.pk);
    }
    match AddressIndex(cleared, out.saved.id)
    case Some(i) =>
      RewriteKeepsAddressesValid(cleared, nextId, i, out.saved);
    case None =>
      AppendKeepsAddressesValid(cleared, nextId, out.nextId, out.saved);
  }

  /** After saving a default address, it is its user's only default address. */
  lemma SavedDefaultIsTheOnlyDefault(rows: seq<Address>, nextId: nat, d: AddressDraft)
    requires AddressesValid(rows, nextId)
    requires d.isDefault
    ensures var out := SaveSpec(rows, nextId, d);
            && out.saved.isDefault && out.saved in out.rows
            && forall x | x in out.rows && x.user == d.user && x.isDefault :: x == out.saved
  {
    SaveWritesDraft(rows, nextId, d);
    var out := SaveSpec(rows, nextId, d);
    var cleared := ClearDefaults(rows, d.user, d.pk);
    forall x | x in out.rows && x.user == d.user && x.isDefault ensures x == out.saved {
      var l :| 0 <= l < |out.rows| && out.rows[l] == x;
    }
  }

  /**
   * Every row other than the saved one is as it was when the save is not a
   * default one or the row belongs to another user: a non-default save and
   * rows of other users are never touched.
   */
  lemma OtherRowsKept(rows: seq<Address>, nextId: nat, d: AddressDraft, x: Address)
    requires AddressesValid(rows, nextId)
    requires x.id != d.pk.GetOr(nextId)
    requires !d.isDefault || x.user != d.user
    ensures x in SaveSpec(rows, nextId, d).rows <==> x in rows
  {
    var out := SaveSpec(rows, nextId, d);
    var cleared := if d.isDefault then ClearDefaults(rows, d.user, d.pk) else rows;
    var id := d.pk.GetOr(nextId);
    assert x in out.rows <==> x in cleared by {
      match AddressIndex(cleared, id)
      case Some(i) =>
        if x in cleared {
          var l :| 0 <= l < |cleared| && cleared[l] == x;
          assert out.rows[l] == x;
        }
      case None =>
    }
    if d.isDefault {
      if x in rows {
        var l :| 0 <= l < |rows| && rows[l] == x;
        assert cleared[l] == x;
      }
      if x in cleared {
        var l :| 0 <= l < |cleared| && cleared[l] == x;
        assert cleared[l] == rows[l];
      }
    }
  }

  /** A save keeps the one-default rule that held before it. */
  lemma SaveKeepsOneDefaultPerUser(rows: seq<Address>, nextId: nat, d: AddressDraft)
    requires AddressesValid(rows, nextId) && OneDefaultPerUser(rows)
    requires d.pk.None? || AddressIndex(rows, d.pk.value).Some?
    ensures OneDefaultPerUser(SaveSpec(rows, nextId, d).rows)
  {
    var out := SaveSpec(rows, nextId, d);
    SaveWritesDraft(rows, nextId, d);
    SaveKeepsAddressesValid(rows, nextId, d);
    forall x, y | x in out.rows && y in out.rows && x.user == y.user && x.isDefault && y.isDefault
      ensures x == y
    {
      if d.isDefault && x.user == d.user {
        SavedDefaultIsTheOnlyDefault(rows, nextId, d);
      } else if x != out.saved && y != out.saved {
        KeyOfSaved(out, x);
        KeyOfSaved(out, y);
        OtherRowsKept(rows, nextId, d, x);
        OtherRowsKept(rows, nextId, d, y);
      } else {
        var z := if x == out.saved then y else x;
        if z != out.saved {
          KeyOfSaved(out, z);
          OtherRowsKept(rows, nextId, d, z);
        }
      }
    }
  }

  /** With distinct keys, the only row under the saved key is the saved row. */
  lemma KeyOfSaved(out: AddressOutcome, x: Address)
    requires AddressesValid(out.rows, out.nextId)
    requires out.saved in out.rows && x in out.rows && x != out.saved
    ensures x.id != out.saved.id
  {
  }

  /** The address table, and `Address.save` on one draft. */
  class AddressTable {
    var rows: seq<Address>
    var nextId: nat

    method Save(d: AddressDraft) returns (saved: Address)
      modifies this
      ensures SaveSpec(old(rows), old(nextId), d) == AddressOutcome(saved, rows, nextId)
    {
      if d.isDefault {
        rows := ClearDefaults(rows, d.user, d.pk);
      }
      var id: nat;
      if d.pk.None? {
        id := nextId;
        nextId := nextId + 1;
      } else {
        id := d.pk.value;
      }
      saved := Address(id, d.user, d.address, d.city, d.postalCode, d.country, d.isDefault);
      var i := AddressIndex(rows, id);
      if i.Some? {
        rows := rows[i.value := saved];
      } else {
        rows := rows + [saved];
      }
    }
  }
}
