/** The exceptions the modelled code raises: the classes of MyException.py and
    the two Python built-in errors that the factory can run into. */
module Errors {
  import opened Values

  datatype Error =
      /** ElemTypeNotSameException: the set of distinct element types found */
    | ElemTypeNotSame(types: set<TypeTag>)
      /** IndexIllegalException: the rejected index and the factory's length */
    | IndexIllegal(index: int, length: int)
      /** LengthNotMatchToZipException: the two sequences to zip differ in length */
    | LengthNotMatchToZip
      /** Python's AttributeError: an element of the given type has no `append` */
    | NoAttributeAppend(elemType: TypeTag)
      /** Python's TypeError "unhashable type: 'list'" */
    | Unhashable
      /** SqlTypeNotSupportException: the rejected dialect name */
    | SqlTypeNotSupport(sqlType: string)
      /** MissImportantTableInfoException: the table has no column information */
    | MissImportantTableInfo
}
