/** The profile edit dialog: text edits routed to the profile or to its
    address, the province / district / subdistrict cascade, the option
    lists and postal code derived from the address table, and saving. */
module ProfileEdit {
  import opened Wrappers
  import opened Domain

  /** Province to district to subdistrict to postal code. */
  type AddressTable = map<string, map<string, map<string, string>>>

  datatype AddressLevel = ProvinceLevel | DistrictLevel | SubdistrictLevel

  /** The property names an address object has (`name in address`);
      `fullAddressText` only when it is present. */
  predicate IsAddressKey(a: Address, name: string) {
    name in {"province", "district", "subdistrict", "postalCode", "moo", "street", "soi"}
    || (name == "fullAddressText" && a.fullAddressText.Some?)
  }

  function SetAddressField(a: Address, name: string, value: string): Address
    requires IsAddressKey(a, name)
  {
    match name
    case "province" => a.(province := value)
    case "district" => a.(district := value)
    case "subdistrict" => a.(subdistrict := value)
    case "postalCode" => a.(postalCode := value)
    case "moo" => a.(moo := value)
    case "street" => a.(street := value)
    case "soi" => a.(soi := value)
    case _ => a.(fullAddressText := Some(value))
  }

  /** The value of a property of the profile's top level, by name. */
  function TopField(p: Profile, name: string): Option<string>
    requires name != "address"
  {
    match name
    case "firstName" => Some(p.firstName)
    case "lastName" => Some(p.lastName)
    case "phone" => Some(p.phone)
    case "email" => Some(p.email)
    case "lineId" => Some(p.lineId)
    case _ => if name in p.other then Some(p.other[name]) else None
  }

  function SetTopField(p: Profile, name: string, value: string): (q: Profile)
    requires name != "address"
    ensures TopField(q, name) == Some(value)
    ensures forall n :: n != "address" && n != name ==> TopField(q, n) == TopField(p, n)
    ensures q.address == p.address
  {
    match name
    case "firstName" => p.(firstName := value)
    case "lastName" => p.(lastName := value)
    case "phone" => p.(phone := value)
    case "email" => p.(email := value)
    case "lineId" => p.(lineId := value)
    case _ => p.(other := p.other[name := value])
  }

  /** `handleChange`: a name the address has updates the address, any other
      name the top level. (The inputs never use the name `address`.) */
  function ChangeField(p: Profile, name: string, value: string): (q: Profile)
    requires name != "address"
    ensures IsAddressKey(p.address, name) ==> q == p.(address := SetAddressField(p.address, name, value))
    ensures !IsAddressKey(p.address, name) ==> q.address == p.address && TopField(q, name) == Some(value)
    ensures !IsAddressKey(p.address, name) ==>
      forall n :: n != "address" && n != name ==> TopField(q, n) == TopField(p, n)
  {
    if IsAddressKey(p.address, name) then p.(address := SetAddressField(p.address, name, value))
    else SetTopField(p, name, value)
  }

  /** `handleAddressChange`: a level takes the picked value and every level
      below it, and the postal code, are cleared; nothing else changes. */
  function AddressChange(p: Profile, level: AddressLevel, value: string): (q: Profile)
    ensures q.(address := p.address) == p
    ensures q.address.(province := p.address.province, district := p.address.district,
                       subdistrict := p.address.subdistrict, postalCode := p.address.postalCode) == p.address
    ensures level == ProvinceLevel ==>
      q.address.province == value && q.address.district == "" && q.address.subdistrict == "" && q.address.postalCode == ""
    ensures level == DistrictLevel ==>
      q.address.province == p.address.province && q.address.district == value
      && q.address.subdistrict == "" && q.address.postalCode == ""
    ensures level == SubdistrictLevel ==> q.address == p.address.(subdistrict := value)
  {
    var a := p.address;
    var b := match level
      case ProvinceLevel => a.(province := value, district := "", subdistrict := "", postalCode := "")
      case DistrictLevel => a.(district := value, subdistrict := "", postalCode := "")
      case SubdistrictLevel => a.(subdistrict := value);
    p.(address := b)
  }

  /** The postal code the address table gives a fully chosen address, or
      the empty string. */
  function PostalCodeFor(table: AddressTable, a: Address): (code: string)
    ensures code != "" ==> (a.province in table && a.district in table[a.province]
                            && a.subdistrict in table[a.province][a.district]
                            && code == table[a.province][a.district][a.subdistrict])
    ensures a.province == "" || a.district == "" || a.subdistrict == "" ==> code == ""
  {
    if a.province != "" && a.district != "" && a.subdistrict != "" then
      if a.province in table && a.district in table[a.province]
         && a.subdistrict in table[a.province][a.district]
      then table[a.province][a.district][a.subdistrict]
      else ""
    else ""
  }

  /** The district choices: none until a province is chosen. */
  function DistrictOptions(table: AddressTable, a: Address): (ds: set<string>)
    ensures a.province == "" ==> ds == {}
    ensures forall d :: d in ds <==> a.province != "" && a.province in table && d in table[a.province]
  {
    if a.province != "" && a.province in table then table[a.province].Keys else {}
  }

  /** The subdistrict choices: none until both province and district are chosen. */
  function SubdistrictOptions(table: AddressTable, a: Address): (ss: set<string>)
    ensures a.province == "" || a.district == "" ==> ss == {}
    ensures forall s :: s in ss <==> (a.province != "" && a.district != "" && a.province in table
                                      && a.district in table[a.province] && s in table[a.province][a.district])
  {
    if a.province != "" && a.district != "" && a.province in table && a.district in table[a.province]
    then table[a.province][a.district].Keys
    else {}
  }

  /** The postal-code effect, run after a change to any of the three levels. */
  function SettlePostalCode(table: AddressTable, p: Profile): (q: Profile)
    ensures PostalConsistent(table, q)
    ensures q.address.(postalCode := p.address.postalCode) == p.address
    ensures q.(address := p.address) == p
  {
    p.(address := p.address.(postalCode := PostalCodeFor(table, p.address)))
  }

  /** The postal code shown agrees with the table. */
  predicate PostalConsistent(table: AddressTable, p: Profile) {
    p.address.postalCode == PostalCodeFor(table, p.address)
  }

  /** What the user can do in the dialog. The postal code input is
      disabled, so it never sends a change. */
  datatype EditEvent =
    | TypeText(name: string, value: string)
    | Pick(level: AddressLevel, choice: string)

  predicate Enabled(e: EditEvent) {
    e.TypeText? ==> (e.name != "address" && e.name != "postalCode"
                     && e.name != "province" && e.name != "district" && e.name != "subdistrict")
  }

  /** An event followed by the effects it triggers. */
  function Apply(table: AddressTable, p: Profile, e: EditEvent): Profile
    requires Enabled(e)
  {
    match e
    case TypeText(n, v) => ChangeField(p, n, v)
    case Pick(level, v) => SettlePostalCode(table, AddressChange(p, level, v))
  }

  /** Whatever the user types or picks, the postal code keeps agreeing
      with the table. */
  lemma ApplyKeepsPostalCode(table: AddressTable, p: Profile, e: EditEvent)
    requires Enabled(e) && PostalConsistent(table, p)
    ensures PostalConsistent(table, Apply(table, p, e))
  {
    if e.TypeText? {
      var q := ChangeField(p, e.name, e.value);
      if IsAddressKey(p.address, e.name) {
        assert q.address.province == p.address.province;
        assert q.address.district == p.address.district;
        assert q.address.subdistrict == p.address.subdistrict;
        assert q.address.postalCode == p.address.postalCode;
      }
    }
  }

  /** Choosing a province, then a district, then a subdistrict that the
      table lists fills in that subdistrict's postal code. */
  lemma PickingFillsPostalCode(table: AddressTable, p: Profile, prov: string, dist: string, sub: string)
    requires prov != "" && dist != "" && sub != ""
    requires prov in table && dist in table[prov] && sub in table[prov][dist]
    ensures var q1 := SettlePostalCode(table, AddressChange(p, ProvinceLevel, prov));
      var q2 := SettlePostalCode(table, AddressChange(q1, DistrictLevel, dist));
      var q3 := SettlePostalCode(table, AddressChange(q2, SubdistrictLevel, sub));
      q3.address.postalCode == table[prov][dist][sub]
      && q1.address.postalCode == "" && q2.address.postalCode == ""
  {
  }

  /** Re-choosing the province invalidates the old district: its options
      are recomputed and the postal code is empty. */
  lemma ProvinceResets(table: AddressTable, p: Profile, prov: string)
    ensures var q := SettlePostalCode(table, AddressChange(p, ProvinceLevel, prov));
      q.address.postalCode == "" && SubdistrictOptions(table, q.address) == {}
      && DistrictOptions(table, q.address) == (if prov != "" && prov in table then table[prov].Keys else {})
  {
  }

  /** Opening the dialog resets the form to the profile it is given. */
  function Open(profile: Profile): Profile {
    profile
  }

  /** Saving hands the form, as it stands, to the caller. */
  function Save(form: Profile): Profile {
    form
  }

  /** The form after a sequence of user actions, each followed by its effects. */
  function RunEdits(table: AddressTable, p: Profile, events: seq<EditEvent>): Profile
    requires forall i :: 0 <= i < |events| ==> Enabled(events[i])
    decreases |events|
  {
    if |events| == 0 then p else RunEdits(table, Apply(table, p, events[0]), events[1..])
  }

  /** A dialog opened on a profile whose postal code agrees with the table
      saves a profile whose postal code agrees with the table, whatever the
      user did in between. */
  lemma {:induction false} SessionKeepsPostalCode(table: AddressTable, profile: Profile, events: seq<EditEvent>)
    requires forall i :: 0 <= i < |events| ==> Enabled(events[i])
    requires PostalConsistent(table, profile)
    ensures PostalConsistent(table, Save(RunEdits(table, Open(profile), events)))
    decreases |events|
  {
    if |events| > 0 {
      ApplyKeepsPostalCode(table, profile, events[0]);
      SessionKeepsPostalCode(table, Apply(table, profile, events[0]), events[1..]);
    }
  }
}
