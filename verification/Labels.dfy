/** What labels are made of. */
module Labels {
  /** A statement "name = value". */
  datatype Keyword = Keyword(name: string, value: string)
}
