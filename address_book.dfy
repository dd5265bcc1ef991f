/**
 * `AddressBook`: a Python dict from a record's name to the record object.
 * The dict's insertion order is kept as the sequence `order` of its keys:
 * overwriting a key keeps its place, deleting it drops it, and a new key goes
 * to the end. The book holds references, so a record edited after it was
 * looked up is edited inside the book too.
 */
module AddressBooks {
  import opened Wrappers
  import opened Seqs
  import opened Fields
  import opened Records

  const EmptyBookText := "Address Book is empty."

  /** One line of `AddressBook.__str__`: the phones joined by ", ", or "No phones". */
  function BookLine(name: string, phones: seq<string>): string
  {
    "Name: " + name + ", Phones: " + (if phones == [] then "No phones" else Join(phones, ", "))
  }

  /** `AddressBook.__str__` over the lines of its records, in dict order. */
  function BookText(lines: seq<string>): string
  {
    if lines == [] then EmptyBookText else Join(lines, "\n")
  }

  /** A book with records never renders as the empty-book message, so the message is unambiguous. */
  lemma BookTextNonEmpty(lines: seq<string>, name: string, phones: seq<string>)
    requires lines != [] && lines[0] == BookLine(name, phones)
    ensures BookText(lines) != EmptyBookText
  {
    JoinStartsWithFirst(lines, "\n");
    assert lines[0][..6] == "Name: ";
    assert Join(lines, "\n")[..6] == "Name: ";
    assert EmptyBookText[..6] != "Name: " by { assert EmptyBookText[0] == 'A'; }
  }

  /** A record added under a new name adds its line after all the others. */
  lemma BookTextAppend(lines: seq<string>, line: string)
    ensures BookText(lines + [line]) == if lines == [] then line else BookText(lines) + "\n" + line
  {
    if lines != [] {
      JoinAppend(lines, line, "\n");
    } else {
      assert lines + [line] == [line];
    }
  }

  /** The listing lines of the records stored in `data` under `keys`, one per key, in that order. */
  ghost function LinesOf(keys: seq<string>, data: map<string, Record>): (r: seq<string>)
    reads data.Values
    requires forall k :: k in keys ==> k in data
    ensures |r| == |keys|
    ensures forall i :: 0 <= i < |keys| ==> r[i] == BookLine(data[keys[i]].name, data[keys[i]].phones)
  {
    if keys == [] then []
    else
      var last := data[keys[|keys| - 1]];
      LinesOf(keys[..|keys| - 1], data) + [BookLine(last.name, last.phones)]
  }

  /**
   * Storing `record` under its name: if the name is listed already its line
   * is replaced where it stands, otherwise the line is added at the end.
   */
  lemma LinesOfStore(keys: seq<string>, data: map<string, Record>, record: Record)
    requires Distinct(keys) && forall k :: k in keys ==> k in data
    ensures var line, stored := BookLine(record.name, record.phones), data[record.name := record];
      if record.name in keys
      then LinesOf(keys, stored) == LinesOf(keys, data)[FirstIndexOf(keys, record.name).value := line]
      else LinesOf(keys + [record.name], stored) == LinesOf(keys, data) + [line]
  {
    var stored := data[record.name := record];
    if record.name in keys {
    } else {
      var now := LinesOf(keys + [record.name], stored);
      forall i | 0 <= i < |keys| ensures now[i] == LinesOf(keys, data)[i] {
        assert (keys + [record.name])[i] == keys[i];
      }
    }
  }

  class AddressBook {
    /** The keys of `self.data` in insertion order. */
    var order: seq<string>
    /** `self.data`. */
    var data: map<string, Record>

    /** `order` lists each key of `data` once, and every record is stored under its own name. */
    ghost predicate Valid()
      reads this
    {
      (forall k :: k in data <==> k in order) &&
      Distinct(order) &&
      (forall k :: k in data ==> data[k].name == k)
    }

    /** `AddressBook()`: an empty book. */
    constructor ()
      ensures Valid() && data == map[] && order == []
    {
      data := map[];
      order := [];
    }

    /**
     * `add_record`: store `record` under its name, replacing any record of
     * that name (last write wins). Every other name keeps its record; an
     * overwritten name keeps its place in the order, a new one comes last
     * (LinesOfStore says what that does to the listing).
     */
    method AddRecord(record: Record)
      modifies this
      ensures data == old(data)[record.name := record]
      ensures order == if record.name in old(data) then old(order) else old(order) + [record.name]
      ensures Find(record.name) == Some(record)
      ensures forall k :: k != record.name ==> Find(k) == old(Find(k))
      ensures old(Valid()) ==> Valid()
    {
      if Valid() && record.name !in data {
        DistinctAppend(order, record.name);
      }
      if record.name !in data {
        order := order + [record.name];
      }
      data := data[record.name := record];
    }

    /** `find`: the record stored under `name`, or `None`; never fails. */
    function Find(name: string): (r: Option<Record>)
      reads this
      ensures r.Some? <==> name in data
      ensures r.Some? ==> r.value == data[name]
      ensures Valid() && r.Some? ==> r.value.name == name
    {
      if name in data then Some(data[name]) else None
    }

    /** `delete`: drop the entry for `name`, or fail with not-found and change nothing. */
    method Delete(name: string) returns (r: Outcome)
      modifies this
      ensures r.Pass? <==> name in old(data)
      ensures r.Fail? ==> r.error == RecordNotFound(name) && data == old(data) && order == old(order)
      ensures r.Pass? ==> data == old(data) - {name} && order == RemoveFirst(old(order), name)
      ensures old(Valid()) ==> Valid()
    {
      if name in data {
        if Valid() {
          RemoveFirstDistinct(order, name);
        }
        data := data - {name};
        order := RemoveFirst(order, name);
        r := Pass;
      } else {
        r := Fail(RecordNotFound(name));
      }
    }

    /** The listing lines of the book, in insertion order. */
    ghost function Lines(): seq<string>
      reads this, data.Values
      requires Valid()
    {
      LinesOf(order, data)
    }

    /** `__str__`: the empty-book message, or one line per record in insertion order joined by newlines. */
    method ToString() returns (s: string)
      requires Valid()
      ensures s == BookText(Lines())
      ensures s == EmptyBookText <==> |data| == 0
    {
      if |data| == 0 {
        assert order == [];
        return EmptyBookText;
      }
      assert order != [] by {
        var k :| k in data;
      }
      var result: seq<string> := [];
      var i := 0;
      while i < |order|
        invariant i <= |order|
        invariant result == LinesOf(order[..i], data)
      {
        var record := data[order[i]];
        assert order[..i + 1][..i] == order[..i];
        result := result + [BookLine(record.name, record.phones)];
        i := i + 1;
      }
      assert order[..i] == order;
      s := Join(result, "\n");
      BookTextNonEmpty(result, data[order[0]].name, data[order[0]].phones);
    }
  }
}
