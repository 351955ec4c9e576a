/** The fixed list of selectable countries (`Country` and `countries` in App.kt). */
module Registry {
  /** A time-zone identifier of the tz database, such as "Asia/Tokyo", kept as opaque text. */
  type ZoneId = string

  datatype Country = Country(name: string, zone: ZoneId)

  /** The "Area/Location" shape of a tz identifier: it starts with a capital letter and has a '/' before its last character. */
  predicate ZoneIdShape(z: ZoneId)
  {
    |z| >= 3 && 'A' <= z[0] <= 'Z' && z[|z| - 1] != '/' && '/' in z
  }

  /** The five countries offered by the dropdown, in display order. */
  function Countries(): (r: seq<Country>)
    ensures |r| == 5
    ensures forall i :: 0 <= i < |r| ==> r[i].name != []
  {
    [ Country("Japan \U{1F1EF}\U{1F1F5}", "Asia/Tokyo"),
      Country("France \U{1F1EB}\U{1F1F7}", "Europe/Paris"),
      Country("Mexico \U{1F1F2}\U{1F1FD}", "America/Mexico_City"),
      Country("Indonesia \U{1F1EE}\U{1F1E9}", "Asia/Jakarta"),
      Country("Egypt \U{1F1EA}\U{1F1EC}", "Africa/Cairo") ]
  }

  /** No two entries share a name or a zone. */
  lemma CountriesDistinct()
    ensures forall i, j :: 0 <= i < j < |Countries()| ==>
      Countries()[i].name != Countries()[j].name && Countries()[i].zone != Countries()[j].zone
  {
  }

  /** Every zone identifier of the registry has the tz-database "Area/Location" shape. */
  lemma CountryZoneIds()
    ensures forall c :: c in Countries() ==> ZoneIdShape(c.zone)
  {
  }
}
