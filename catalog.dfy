/** The searchable document catalog: each row is one page of one source file,
    with the columns the search query selects. */
module Catalog {

  datatype Row = Row(
    fileId: string,
    title: string,
    ministry: string,
    fiscalYearStart: int,
    category: string,
    subCategory: string,
    filePage: int,
    sourceUrl: string,
    contentText: string)
}
