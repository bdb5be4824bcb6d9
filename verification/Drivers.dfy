/** The parts of the database library that the builder and the translator call: the driver
    types, the placeholder each of them uses, and the SQL keywords. */
module Drivers {
  import opened Text

  datatype Driver = Mysql | Sqlite | Postgres | Mssql

  /** `stmt_convert(index)`: the placeholder of the argument at `index`. */
  function StmtConvert(driver: Driver, index: nat): (s: string)
    ensures s != ""
  {
    match driver
    case Mysql | Sqlite => "?"
    case Postgres => "$" + Dec(index + 1)
    case Mssql => "@p" + Dec(index + 1)
  }
}
