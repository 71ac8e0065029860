/** The records the application passes between its parts: bookings,
    knowledge articles and the farmer's profile. */
module Domain {
  import opened Wrappers

  datatype Role = Farmer | Factory | Admin

  datatype BookingStatus = Pending | Confirmed | Completed

  /** The fields only a factory-authored booking carries. */
  datatype FactoryDetails = FactoryDetails(
    farmerName: string,
    pickupLocation: string,
    estimatedQuantity: string,
    address: string)

  /** A booking; `date` is the raw date token as entered or displayed. */
  datatype Booking = Booking(
    id: string,
    date: string,
    description: string,
    status: BookingStatus,
    userType: Role,
    userName: string,
    factory: Option<FactoryDetails>)

  datatype ArticleStatus = Published | Unpublished

  datatype Article = Article(
    id: string,
    title: string,
    category: string,
    imageUrl: string,
    content: string,
    postDate: string,
    status: ArticleStatus)

  /** A postal address; `fullAddressText` is an optional property. */
  datatype Address = Address(
    province: string,
    district: string,
    subdistrict: string,
    postalCode: string,
    moo: string,
    street: string,
    soi: string,
    fullAddressText: Option<string>)

  /** A profile. The named text fields are those the edit form shows; any
      other top-level text property lives in `other`. */
  datatype Profile = Profile(
    firstName: string,
    lastName: string,
    phone: string,
    email: string,
    lineId: string,
    address: Address,
    other: map<string, string>)

  /** The display name `${firstName} ${lastName}`. */
  function FullName(p: Profile): (s: string)
    ensures |s| == |p.firstName| + 1 + |p.lastName|
    ensures s[..|p.firstName|] == p.firstName && s[|p.firstName|] == ' '
    ensures s[|p.firstName| + 1..] == p.lastName
  {
    p.firstName + " " + p.lastName
  }
}
