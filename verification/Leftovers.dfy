/** Entries of a listing of leftovers. */
module Leftovers {
  datatype State = Finished | Held | Unknown | Kept | Undeclared

  datatype Action = Delete | Report | Never

  datatype Entry = Entry(action: Action, path: string, state: State, rule: string, bytes: nat, measured: bool)
}
