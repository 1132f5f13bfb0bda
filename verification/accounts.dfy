/**
 The account record that flows through the whole system: one CSV row on the
 dashboard, one element of the JSON array handed to the GitHub workflow or to
 the local script, one iteration of the scripts' batch loop.
 */
module Accounts {

  /** All six fields are strings: depository participant code, login
      username and password, transaction PIN, client registration number
      (CRN) and the number of units to apply for. */
  datatype Account = Account(
    dp: string,
    username: string,
    password: string,
    pin: string,
    crn: string,
    units: string)

  /** The column names, in the order the CSV template lists them. */
  const FieldNames: seq<string> := ["dp", "username", "password", "pin", "crn", "units"]

  /** The `i`-th field, in the order of `FieldNames`. */
  function Field(a: Account, i: nat): string
    requires i < 6
  {
    match i
    case 0 => a.dp
    case 1 => a.username
    case 2 => a.password
    case 3 => a.pin
    case 4 => a.crn
    case _ => a.units
  }
}
