/** A CSV store on disk (the daily or the hourly price file): whether the
    file is present, its header line and its data rows, in file order. */
module Store {
  import opened Bars

  class CsvFile {
    var present: bool
    var header: seq<string>
    var rows: seq<Row>

    /** A file that does not exist has no header and no rows. */
    predicate Valid()
      reads this
    {
      !present ==> header == [] && rows == []
    }

    /** A path with no file behind it. */
    constructor Absent()
      ensures Valid() && !present && header == [] && rows == []
    {
      present, header, rows := false, [], [];
    }

    /** A file already holding `h` and `rs`. */
    constructor Holding(h: seq<string>, rs: seq<Row>)
      ensures Valid() && present && header == h && rows == rs
    {
      present, header, rows := true, h, rs;
    }

    /** `pd.DataFrame(columns=headers).to_csv(path, index=False)`: a new file
        holding only the header line. */
    method CreateWithHeader(h: seq<string>)
      modifies this
      ensures Valid() && present && header == h && rows == []
    {
      present, header, rows := true, h, [];
    }

    /** `frame.to_csv(path, mode="a", header=False, index=False)`: the rows
        go after the existing ones and the header is left as it was (a file
        that did not exist is created without one). */
    method Append(more: seq<Row>)
      requires Valid()
      modifies this
      ensures Valid() && present && header == old(header) && rows == old(rows) + more
    {
      present := true;
      rows := rows + more;
    }

    /** `frame.to_csv(path, index=False)` for a frame with the file's own
        columns: the file is replaced by the header and `rs`. */
    method Rewrite(rs: seq<Row>)
      requires Valid() && present
      modifies this
      ensures Valid() && present && header == old(header) && rows == rs
    {
      rows := rs;
    }
  }
}
