/** The records JsonUtility fills from the team-members file. */
module Members {

  /** One team member: four text fields, replaced wholesale on every reload. */
  datatype Record = Record(id: string, name: string, role: string, nickname: string)

  /** The whole file. Nothing ties the number of column headers to the four
      fields of a record. */
  datatype Table = Table(title: string, columnHeaders: seq<string>, data: seq<Record>)
}
