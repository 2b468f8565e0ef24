/** Patron.java: a plain record of one library user. The Java class has
    setters, but nothing in the importer or the store calls them, so a
    value type is enough here. */
module PatronRecord {

  /** `fine` is a Java double; the model keeps it as a real number. */
  datatype Patron = Patron(id: string, name: string, address: string, fine: real)
}
