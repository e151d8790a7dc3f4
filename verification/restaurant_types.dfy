/** The record shapes shared by the ingestion script, the card and the geocoder. */
module RestaurantTypes {

  /** A { latitude, longitude } pair in decimal degrees. */
  datatype Coord = Coord(latitude: real, longitude: real)

  /** One catalog entry, field for field as the Restaurant interface declares it;
      the optional operatingHoursDetailed is always present (possibly "") in what the
      ingestion script writes. */
  datatype Restaurant = Restaurant(
    id: string,
    name: string,
    address: string,
    cuisine: string,
    rating: real,
    priceRange: string,
    openingHours: string,
    closingHours: string,
    operatingHoursDetailed: string,
    latitude: real,
    longitude: real,
    phone: string,
    description: string)
}
