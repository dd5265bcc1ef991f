/**
 * `Record`: one contact, a stripped name and the ordered list of phone
 * numbers it owns. Each Python `Phone` object belongs to exactly one record,
 * so the list is modelled by the phones' values; rewriting a `Phone.value`
 * in place is an update of that position.
 */
module Records {
  import opened Wrappers
  import opened Seqs
  import opened Fields

  /** `Record.__str__`: "Contact name: <name>, phones: " and the phones joined by "; ". */
  function RecordText(name: string, phones: seq<string>): string
  {
    "Contact name: " + name + ", phones: " + Join(phones, "; ")
  }

  /** The text after the fixed prefix and the name of a record's rendering. */
  function PhonesSegment(text: string, name: string): string
  {
    var skip := |"Contact name: " + name + ", phones: "|;
    if skip <= |text| then text[skip..] else []
  }

  /** The rendering loses nothing: valid phones can be read back from it, in order. */
  lemma RecordTextPhones(name: string, phones: seq<string>)
    requires forall k :: 0 <= k < |phones| ==> ValidPhone(phones[k])
    ensures Chunks(PhonesSegment(RecordText(name, phones), name), 10, 2) == phones
  {
    var head := "Contact name: " + name + ", phones: ";
    assert RecordText(name, phones) == head + Join(phones, "; ");
    assert PhonesSegment(RecordText(name, phones), name) == Join(phones, "; ");
    ChunksOfJoin(phones, "; ", 10);
  }

  class Record {
    /** `self.name.value`. No operation renames a record. */
    const name: string
    /** The values of `self.phones`, in list order. */
    var phones: seq<string>

    /** Every stored phone satisfies the phone invariant. */
    ghost predicate Valid()
      reads this
    {
      forall k :: 0 <= k < |phones| ==> ValidPhone(phones[k])
    }

    /** `Record(name)`: the name is stripped and there are no phones yet. */
    constructor (rawName: string)
      ensures name == Strip(rawName) && phones == []
      ensures Valid()
    {
      name := Strip(rawName);
      phones := [];
    }

    /** The scan over `self.phones` with early `break` that the phone operations share. */
    method IndexOf(phone: string) returns (r: Option<nat>)
      ensures r == FirstIndexOf(phones, phone)
    {
      var i := 0;
      while i < |phones|
        invariant i <= |phones|
        invariant phone !in phones[..i]
      {
        if phones[i] == phone {
          FirstIndexUnique(phones, phone, i);
          return Some(i);
        }
        assert phones[..i + 1] == phones[..i] + [phones[i]];
        i := i + 1;
      }
      assert phones[..i] == phones;
      return None;
    }

    /** `add_phone`: validate, then append; duplicates are allowed, a rejected phone changes nothing. */
    method AddPhone(phone: string) returns (r: Outcome)
      modifies this
      ensures r == ValidatePhone(phone)
      ensures phones == if r.Pass? then old(phones) + [phone] else old(phones)
      ensures old(Valid()) ==> Valid()
    {
      r := ValidatePhone(phone);
      if r.Pass? {
        phones := phones + [phone];
      }
    }

    /** `remove_phone`: delete the first entry equal to `phone`, or fail with not-found and change nothing. */
    method RemovePhone(phone: string) returns (r: Outcome)
      modifies this
      ensures r.Pass? <==> phone in old(phones)
      ensures r.Fail? ==> r.error == PhoneNotFound(phone)
      ensures phones == RemoveFirst(old(phones), phone)
      ensures old(Valid()) ==> Valid()
    {
      var found := IndexOf(phone);
      match found
      case Some(i) =>
        phones := phones[..i] + phones[i + 1..];
        r := Pass;
      case None =>
        r := Fail(PhoneNotFound(phone));
    }

    /**
     * `edit_phone`: the checks run in the source's order (the old phone must
     * be present, the new one must differ from it, then the digit and length
     * rules of `_validate_phone`); on success only the first match's position
     * changes, on any failure nothing does.
     */
    method EditPhone(oldPhone: string, newPhone: string) returns (r: Outcome)
      modifies this
      ensures oldPhone !in old(phones) ==> r == Fail(PhoneNotFound(oldPhone))
      ensures oldPhone in old(phones) && newPhone == oldPhone ==> r == Fail(SameAsOld)
      ensures oldPhone in old(phones) && newPhone != oldPhone ==> r == ValidatePhone(newPhone)
      ensures r.Pass? ==> phones == old(phones)[FirstIndexOf(old(phones), oldPhone).value := newPhone]
      ensures r.Fail? ==> phones == old(phones)
      ensures old(Valid()) ==> Valid()
    {
      var found := IndexOf(oldPhone);
      match found
      case None =>
        r := Fail(PhoneNotFound(oldPhone));
      case Some(i) =>
        if oldPhone == newPhone {
          r := Fail(SameAsOld);
        } else {
          r := ValidatePhone(newPhone);
          if r.Pass? {
            phones := phones[i := newPhone];
          }
        }
    }

    /** `find_phone`: the first entry equal to `phone`, or `None`; the record is left as it is. */
    method FindPhone(phone: string) returns (r: Option<string>)
      ensures r.Some? <==> phone in phones
      ensures r.Some? ==> r.value == phone
    {
      var found := IndexOf(phone);
      match found
      case Some(i) => r := Some(phones[i]);
      case None => r := None;
    }

    /** `__str__`. */
    function Text(): string
      reads this
    {
      RecordText(name, phones)
    }
  }
}
