/** The single local-storage slot (`cartTable`) through which the cart's table
    association survives a page reload. */
module TableStorage {
  import opened Wrappers
  import opened Records

  /** What a read of the slot yields after `JSON.parse`. `Unreadable` covers an
      empty stored string, text that does not parse, and JSON whose value is
      not an object: the loader turns each of these into "no table". */
  datatype Stored = TableRecord(tableNumber: Option<string>, tableId: Option<string>) | Unreadable

  /** The slot itself: `None` when the key is absent. */
  type Slot = Option<Stored>

  /** The table pair restored at start-up: each field is the stored value if it
      is truthy, and `null` otherwise (`persistedTable?.field || null`). */
  datatype Restored = Restored(tableNumber: Option<string>, tableId: Option<string>)

  function Load(slot: Slot): (r: Restored)
    ensures r.tableNumber.None? || Truthy(r.tableNumber)
    ensures r.tableId.None? || Truthy(r.tableId)
    ensures slot.None? || slot == Some(Unreadable) ==> r.tableNumber.None? && r.tableId.None?
    ensures slot.Some? && slot.value.TableRecord? ==>
              (Truthy(slot.value.tableNumber) ==> r.tableNumber == slot.value.tableNumber) &&
              (Truthy(slot.value.tableId) ==> r.tableId == slot.value.tableId)
    ensures slot.Some? && slot.value.TableRecord? && !Truthy(slot.value.tableNumber) ==> r.tableNumber.None?
    ensures slot.Some? && slot.value.TableRecord? && !Truthy(slot.value.tableId) ==> r.tableId.None?
  {
    match slot
    case None => Restored(None, None)
    case Some(Unreadable) => Restored(None, None)
    case Some(TableRecord(n, id)) => Restored(OrNull(n), OrNull(id))
  }

  /** `localStorage.setItem` inside `try {} catch {}`: when the write throws
      (`ok == false`: quota exceeded, storage disabled) the slot keeps its old value. */
  function Save(slot: Slot, tableNumber: Option<string>, tableId: Option<string>, ok: bool): (r: Slot)
    ensures ok ==> Load(r) == Restored(OrNull(tableNumber), OrNull(tableId))
    ensures ok && Truthy(tableNumber) && Truthy(tableId) ==> Load(r) == Restored(tableNumber, tableId)
    ensures !ok ==> r == slot
  {
    if ok then Some(TableRecord(tableNumber, tableId)) else slot
  }

  /** `localStorage.removeItem` inside `try {} catch {}`. */
  function Remove(slot: Slot, ok: bool): (r: Slot)
    ensures ok ==> Load(r) == Restored(None, None)
    ensures !ok ==> r == slot
  {
    if ok then None else slot
  }
}
