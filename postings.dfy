/** One job-posting row and the normalisation `load_dataset` applies after
    reading the CSV file: `fillna("")` on the description and requirements columns. */
module Postings {

  datatype Option<T> = None | Some(value: T)

  /** A row as read from the file; a missing description or requirements cell is `None` (NaN). */
  datatype RawPosting = RawPosting(
    jobTitle: string,
    jobDescription: Option<string>,
    requirements: Option<string>,
    otherColumns: map<string, string>)

  /** A row after loading: both normalised text columns are strings. */
  datatype Posting = Posting(
    jobTitle: string,
    jobDescription: string,
    requirements: string,
    otherColumns: map<string, string>)

  /** `fillna("")` on one cell. */
  function FillNa(cell: Option<string>): (r: string)
    ensures cell == None ==> r == ""
    ensures cell != None ==> cell == Some(r)
  {
    match cell
    case None => ""
    case Some(s) => s
  }

  /** The row `load_dataset` produces from a raw row: only the two normalised cells change. */
  function Normalize(raw: RawPosting): (p: Posting)
    ensures p.jobTitle == raw.jobTitle && p.otherColumns == raw.otherColumns
    ensures raw.jobDescription == None ==> p.jobDescription == ""
    ensures raw.jobDescription != None ==> raw.jobDescription == Some(p.jobDescription)
    ensures raw.requirements == None ==> p.requirements == ""
    ensures raw.requirements != None ==> raw.requirements == Some(p.requirements)
  {
    Posting(raw.jobTitle, FillNa(raw.jobDescription), FillNa(raw.requirements), raw.otherColumns)
  }

  /** `astype(int)` on a boolean column entry. */
  function AsInt(b: bool): int {
    if b then 1 else 0
  }
}
