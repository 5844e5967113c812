/**
 * The inventor table editor. Like the citation tables, each handler copies the list,
 * changes the copy and hands it back through `onUpdateInventors`.
 */
module InventorTable {
  import opened Idf
  import SeqEdit

  class InventorEditor {
    var inventors: seq<Inventor>

    constructor (inventors: seq<Inventor>)
      ensures this.inventors == inventors
    {
      this.inventors := inventors;
    }

    /** `handleInventorChange(idx, field, value)`: one field of one inventor takes the value;
        every other field and every other inventor stays. */
    method HandleInventorChange(idx: nat, f: InventorField, value: string)
      requires idx < |inventors|
      modifies this
      ensures |inventors| == |old(inventors)|
      ensures InventorGet(inventors[idx], f) == value
      ensures forall g :: g != f ==> InventorGet(inventors[idx], g) == InventorGet(old(inventors[idx]), g)
      ensures forall k :: 0 <= k < |inventors| && k != idx ==> inventors[k] == old(inventors[k])
    {
      var updated := inventors;
      updated := updated[idx := InventorSet(updated[idx], f, value)];
      inventors := updated;
    }

    /** `handleDeleteInventor(idx)`: `splice(idx, 1)` on a copy. */
    method HandleDeleteInventor(idx: nat)
      modifies this
      ensures inventors == SeqEdit.RemoveAt(old(inventors), idx)
    {
      var updated := inventors;
      updated := SeqEdit.RemoveAt(updated, idx);
      inventors := updated;
    }

    /** `handleAddInventor()`: an inventor with all eight fields "" goes at the end. */
    method HandleAddInventor()
      modifies this
      ensures inventors == old(inventors) + [EmptyInventor]
    {
      var newInventor := Inventor("", "", "", "", "", "", "", "");
      inventors := inventors + [newInventor];
    }
  }

  /** Every field of the appended inventor is empty. */
  lemma EmptyInventorIsBlank(f: InventorField)
    ensures InventorGet(EmptyInventor, f) == ""
  {
  }

  /** Identity is positional: after adding two blank inventors, deleting either one leaves
      the same list, and deleting the last restores the list before the second add. */
  lemma TwinBlankInventors(inventors: seq<Inventor>)
    ensures var two := inventors + [EmptyInventor] + [EmptyInventor];
      && SeqEdit.RemoveAt(two, |inventors|) == SeqEdit.RemoveAt(two, |inventors| + 1)
      && SeqEdit.RemoveAt(two, |inventors| + 1) == inventors + [EmptyInventor]
  {
    var one := inventors + [EmptyInventor];
    var two := one + [EmptyInventor];
    SeqEdit.RemoveEitherTwin(two, |inventors|);
    SeqEdit.AppendThenRemoveLast(one, EmptyInventor);
  }
}
