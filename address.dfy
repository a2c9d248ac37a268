/** The `Address` row of app/models/adresses.py and its `full_address` property. */
module AddressModel {
  import opened Wrappers
  import opened Ids
  import opened Text

  datatype Address = Address(
    id: nat,
    userId: UserId,
    streetAddress: string,
    apartment: Option<string>,
    city: string,
    state: string,
    postalCode: string,
    country: string,
    isDefault: bool,
    addressType: string)

  /** Python truthiness of the nullable `apartment` column. */
  predicate HasApartment(a: Address) {
    a.apartment.Some? && a.apartment.value != ""
  }

  /** The segments of the full address: street, an optional "Apt <apartment>", city, state
      and postal code. */
  function AddressParts(a: Address): (parts: seq<string>)
    ensures |parts| == if HasApartment(a) then 5 else 4
    ensures parts[0] == a.streetAddress && parts[|parts| - 1] == a.postalCode
    ensures parts[|parts| - 3..] == [a.city, a.state, a.postalCode]
    ensures HasApartment(a) ==> parts[1] == "Apt " + a.apartment.value
  {
    [a.streetAddress] + (if HasApartment(a) then ["Apt " + a.apartment.value] else []) + [a.city, a.state, a.postalCode]
  }

  /** `Address.full_address`: the segments joined with ", ". */
  function FullAddress(a: Address): string {
    Join(AddressParts(a), ", ")
  }

  /** `full_address` builds its list step by step: the street, then the apartment segment
      when the apartment is truthy, then city, state and postal code. */
  method BuildFullAddress(a: Address) returns (s: string)
    ensures s == FullAddress(a)
  {
    var parts := [a.streetAddress];
    if a.apartment.Some? && a.apartment.value != "" {
      parts := parts + ["Apt " + a.apartment.value];
    }
    parts := parts + [a.city, a.state, a.postalCode];
    s := Join(parts, ", ");
  }

  /** Country, default flag and address type never reach the full address. */
  lemma FullAddressIgnoresCountryAndKind(a: Address, country: string, isDefault: bool, addressType: string)
    ensures FullAddress(a.(country := country, isDefault := isDefault, addressType := addressType)) == FullAddress(a)
  {
  }

  lemma {:induction false} JoinStartsWithFirst(parts: seq<string>, sep: string)
    requires parts != []
    ensures StartsWith(Join(parts, sep), parts[0])
  {
    if |parts| > 1 {
      var j := Join(parts, sep);
      assert j == parts[0] + (sep + Join(parts[1..], sep));
      assert j[..|parts[0]|] == parts[0];
    }
  }

  lemma {:induction false} JoinEndsWithLast(parts: seq<string>, sep: string)
    requires parts != []
    ensures var j := Join(parts, sep); var last := parts[|parts| - 1];
      |last| <= |j| && j[|j| - |last|..] == last
  {
    if |parts| > 1 {
      JoinEndsWithLast(parts[1..], sep);
      var rest := Join(parts[1..], sep);
      var last := parts[|parts| - 1];
      assert parts[1..][|parts[1..]| - 1] == last;
      var j := Join(parts, sep);
      assert j == (parts[0] + sep) + rest;
      assert j[|j| - |last|..] == rest[|rest| - |last|..];
    }
  }

  /** The full address begins with the street and ends with the postal code. */
  lemma FullAddressFrame(a: Address)
    ensures StartsWith(FullAddress(a), a.streetAddress)
    ensures var s := FullAddress(a); |a.postalCode| <= |s| && s[|s| - |a.postalCode|..] == a.postalCode
  {
    JoinStartsWithFirst(AddressParts(a), ", ");
    JoinEndsWithLast(AddressParts(a), ", ");
  }

  /** The fields of `Address.to_dict`. */
  datatype AddressView = AddressView(
    id: nat,
    streetAddress: string,
    apartment: Option<string>,
    city: string,
    state: string,
    postalCode: string,
    country: string,
    isDefault: bool,
    addressType: string,
    fullAddress: string)

  /** `Address.to_dict`: the columns as stored, and the full address of the property. */
  function AddressToDict(a: Address): (v: AddressView)
    ensures v.fullAddress == FullAddress(a)
    ensures v.apartment == a.apartment && v.country == a.country
  {
    AddressView(a.id, a.streetAddress, a.apartment, a.city, a.state, a.postalCode,
                a.country, a.isDefault, a.addressType, FullAddress(a))
  }
}
