/** `getRoomTypes`: property counts per room type as `{labels, data}`. */
module RoomTypesRoute {
  import opened Wrappers
  import opened Text
  import opened SeriesData

  /** A query row: `rooms_en` (possibly null or empty) and `COUNT(*) AS count`. */
  datatype RoomTypeRow = RoomTypeRow(roomsEn: Option<string>, count: nat)

  function RoomLabel(row: RoomTypeRow): string
  {
    OrUnknown(row.roomsEn)
  }

  function RoomCount(row: RoomTypeRow): int
  {
    row.count
  }

  /**
   * The route's JSON, row order kept: each room type is its own label unless
   * it is missing or empty, when it reads 'Unknown'; no label is empty.
   */
  function RoomTypes(rows: seq<RoomTypeRow>): (r: Series<int>)
    ensures |r.labels| == |rows| && |r.data| == |rows|
    ensures forall i :: 0 <= i < |rows| ==>
              && r.labels[i] != ""
              && r.labels[i] == (if rows[i].roomsEn.Some? && rows[i].roomsEn.value != "" then rows[i].roomsEn.value else Unknown)
              && r.data[i] == rows[i].count
  {
    if rows == [] then Series([], []) else Project(rows, RoomLabel, RoomCount)
  }
}
