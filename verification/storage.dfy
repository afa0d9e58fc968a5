/** The database state the repositories read and write: companies, power
    plants and the forecasts table. The forecasts table is a map keyed by
    (plant, hour), which is the unique index idx_forecasts_plant_hour: a map
    cannot hold two rows for one key. */
module Storage {
  import opened Time
  import opened Models

  /** The (plant_id, hour_utc) key. A timestamptz keeps the instant, not the
      DateTime kind, so the hour is its tick count. */
  datatype Key = Key(plant: PlantId, hour: nat)

  /** A forecasts row (its surrogate uuid id is not modelled). */
  datatype Row = Row(mwh: Mwh, createdAt: DateTime, updatedAt: DateTime)

  type Table = map<Key, Row>

  datatype Plant = Plant(companyId: CompanyId, isActive: bool)

  datatype Company = Company(name: string, isActive: bool)

  datatype Db = Db(
    companies: map<CompanyId, Company>,
    plants: map<PlantId, Plant>,
    forecasts: Table)

  /** The instant a stored timestamptz reads back as. */
  function HourOf(k: Key): DateTime {
    DateTime(Utc, k.hour)
  }

  /** The plant exists and is active. */
  predicate IsActivePlant(db: Db, plantId: PlantId) {
    plantId in db.plants && db.plants[plantId].isActive
  }

  /** The company exists and is active. */
  predicate IsActiveCompany(db: Db, companyId: CompanyId) {
    companyId in db.companies && db.companies[companyId].isActive
  }
}
