/**
 * The usage example kept in comments at the end of bot_helper.py, as a
 * client of the model: build John's and Jane's records, list the book, edit
 * John's record through the reference `find` returns, look up one of his
 * phones and delete Jane.
 */
module Scenario {
  import opened Wrappers
  import opened Seqs
  import opened Fields
  import opened Records
  import opened AddressBooks

  /** `Record(name)` followed by `add_phone` for each of `phones`, all of them valid. */
  method Contact(name: string, phones: seq<string>) returns (record: Record)
    requires Strip(name) == name
    requires forall k :: 0 <= k < |phones| ==> ValidPhone(phones[k])
    ensures fresh(record) && record.name == name && record.phones == phones
  {
    record := new Record(name);
    var i := 0;
    while i < |phones|
      invariant i <= |phones| && record.phones == phones[..i]
    {
      Accepted(phones[i]);
      var r := record.AddPhone(phones[i]);
      assert phones[..i + 1] == phones[..i] + [phones[i]];
      i := i + 1;
    }
    assert phones[..i] == phones;
  }

  /** The book of the example after both records were added. */
  method Build() returns (book: AddressBook, john: Record, jane: Record)
    ensures fresh(book) && fresh(john) && fresh(jane)
    ensures book.Valid() && book.order == ["John", "Jane"]
    ensures book.data == map["John" := john, "Jane" := jane]
    ensures john.name == "John" && john.phones == ["1234567890", "5555555555"]
    ensures jane.name == "Jane" && jane.phones == ["9876543210"]
  {
    book := new AddressBook();
    PlainName("John");
    JohnValid();
    john := Contact("John", ["1234567890", "5555555555"]);
    book.AddRecord(john);
    PlainName("Jane");
    JaneValid();
    jane := Contact("Jane", ["9876543210"]);
    book.AddRecord(jane);
  }

  lemma JohnValid()
    ensures forall k :: 0 <= k < 2 ==> ValidPhone(["1234567890", "5555555555"][k])
  {
  }

  lemma JaneValid()
    ensures forall k :: 0 <= k < 1 ==> ValidPhone(["9876543210"][k])
  {
  }

  /** `print(book)` with both records in it. */
  method ListBoth(book: AddressBook, john: Record, jane: Record) returns (listed: string)
    requires book.Valid() && book.order == ["John", "Jane"] && book.data == map["John" := john, "Jane" := jane]
    requires john.name == "John" && john.phones == ["1234567890", "5555555555"]
    requires jane.name == "Jane" && jane.phones == ["9876543210"]
    ensures listed == "Name: John, Phones: 1234567890, 5555555555\nName: Jane, Phones: 9876543210"
  {
    listed := book.ToString();
    assert book.Lines() == [BookLine("John", ["1234567890", "5555555555"]), BookLine("Jane", ["9876543210"])];
    FirstListing(book.Lines());
  }

  /** `john = book.find("John")`, then `john.edit_phone("1234567890", "1112223333")` on the record the book holds. */
  method EditThroughFind(book: AddressBook, john: Record, jane: Record) returns (johnRef: Record)
    requires book.Valid() && book.data == map["John" := john, "Jane" := jane]
    requires john.phones == ["1234567890", "5555555555"]
    modifies john
    ensures johnRef == john && john.phones == ["1112223333", "5555555555"]
  {
    var johnFound := book.Find("John");
    johnRef := johnFound.value;
    NewNumberAccepted();
    assert FirstIndexOf(john.phones, "1234567890") == Some(0);
    var r := johnRef.EditPhone("1234567890", "1112223333");
    assert r == Pass;
    assert john.phones == ["1234567890", "5555555555"][0 := "1112223333"];
  }

  /** `print(john)` and `john.find_phone("5555555555")` after the edit. */
  method Inspect(john: Record) returns (johnText: string, found: Option<string>)
    requires john.name == "John" && john.phones == ["1112223333", "5555555555"]
    ensures johnText == "Contact name: John, phones: 1112223333; 5555555555"
    ensures found == Some("5555555555")
  {
    johnText := john.Text();
    EditedText();
    found := john.FindPhone("5555555555");
  }

  /** `book.delete("Jane")`, then `find("Jane")` and the listing. */
  method DeleteJane(book: AddressBook, john: Record, jane: Record) returns (janeAfter: Option<Record>, listedAfter: string)
    requires book.Valid() && book.order == ["John", "Jane"] && book.data == map["John" := john, "Jane" := jane]
    requires john.phones == ["1112223333", "5555555555"] && john.name == "John"
    modifies book
    ensures janeAfter == None
    ensures listedAfter == "Name: John, Phones: 1112223333, 5555555555"
  {
    var r := book.Delete("Jane");
    assert FirstIndexOf(["John", "Jane"], "Jane") == Some(1);
    assert book.order == ["John"];
    assert book.data == map["John" := john];
    janeAfter := book.Find("Jane");
    listedAfter := book.ToString();
    assert book.Lines() == [BookLine("John", ["1112223333", "5555555555"])];
    LastListing(book.Lines());
  }

  /** The whole example: what it prints, and that Jane is gone at the end. */
  method Demo() returns (listed: string, johnText: string, found: Option<string>, janeAfter: Option<Record>, listedAfter: string)
    ensures listed == "Name: John, Phones: 1234567890, 5555555555\nName: Jane, Phones: 9876543210"
    ensures johnText == "Contact name: John, phones: 1112223333; 5555555555"
    ensures found == Some("5555555555")
    ensures janeAfter == None
    ensures listedAfter == "Name: John, Phones: 1112223333, 5555555555"
  {
    var book, john, jane := Build();
    listed := ListBoth(book, john, jane);
    var johnRef := EditThroughFind(book, john, jane);
    johnText, found := Inspect(johnRef);
    janeAfter, listedAfter := DeleteJane(book, john, jane);
  }

  lemma PlainName(s: string)
    requires s == "John" || s == "Jane"
    ensures Strip(s) == s
  {
    StripPadded([], s, []);
    assert [] + s + [] == s;
  }

  lemma NewNumberAccepted()
    ensures ValidatePhone("1112223333") == Pass
  {
  }

  lemma Accepted(s: string)
    requires ValidPhone(s)
    ensures ValidatePhone(s) == Pass
  {
  }

  lemma JohnPhones()
    ensures Join(["1234567890", "5555555555"], ", ") == "1234567890, 5555555555"
  {
    assert ["1234567890", "5555555555"][1..] == ["5555555555"];
  }

  lemma JohnHead()
    ensures "Name: " + "John" + ", Phones: " == "Name: John, Phones: "
  {
  }

  lemma JohnTail()
    ensures "Name: John, Phones: " + "1234567890, 5555555555" == "Name: John, Phones: 1234567890, 5555555555"
  {
  }

  lemma JohnLine()
    ensures BookLine("John", ["1234567890", "5555555555"]) == "Name: John, Phones: 1234567890, 5555555555"
  {
    JohnPhones();
    JohnHead();
    JohnTail();
  }

  lemma JaneLine()
    ensures BookLine("Jane", ["9876543210"]) == "Name: Jane, Phones: 9876543210"
  {
    assert "Name: " + "Jane" + ", Phones: " == "Name: Jane, Phones: ";
  }

  lemma ListingHead()
    ensures "Name: John, Phones: 1234567890, 5555555555" + "\n" == "Name: John, Phones: 1234567890, 5555555555\n"
  {
  }

  lemma ListingTail()
    ensures "Name: John, Phones: 1234567890, 5555555555\n" + "Name: Jane, Phones: 9876543210"
      == "Name: John, Phones: 1234567890, 5555555555\nName: Jane, Phones: 9876543210"
  {
  }

  lemma FirstListing(lines: seq<string>)
    requires lines == [BookLine("John", ["1234567890", "5555555555"]), BookLine("Jane", ["9876543210"])]
    ensures BookText(lines) == "Name: John, Phones: 1234567890, 5555555555\nName: Jane, Phones: 9876543210"
  {
    JohnLine();
    JaneLine();
    ListingHead();
    ListingTail();
    assert lines[1..] == [lines[1]];
    assert Join(lines, "\n") == lines[0] + "\n" + lines[1];
  }

  lemma EditedText()
    ensures RecordText("John", ["1112223333", "5555555555"]) == "Contact name: John, phones: 1112223333; 5555555555"
  {
  }

  lemma LastTail()
    ensures "Name: John, Phones: " + "1112223333, 5555555555" == "Name: John, Phones: 1112223333, 5555555555"
  {
  }

  lemma LastPhones()
    ensures Join(["1112223333", "5555555555"], ", ") == "1112223333, 5555555555"
  {
    assert ["1112223333", "5555555555"][1..] == ["5555555555"];
  }

  lemma LastListing(lines: seq<string>)
    requires lines == [BookLine("John", ["1112223333", "5555555555"])]
    ensures BookText(lines) == "Name: John, Phones: 1112223333, 5555555555"
  {
    LastPhones();
    JohnHead();
    LastTail();
  }
}
