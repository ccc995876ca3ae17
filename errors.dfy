/** The exceptions the table views and readers throw, one constructor per cause. */
module Errors {

  datatype Error =
    /** `findVariable` found no variable of that name (IllegalArgumentException). */
    | UnknownVariable(name: string)
    /** The variable's dimensions are not congruent with the table's (IllegalArgumentException). */
    | IncongruentVariable(name: string)
    /** A variable dimension is missing from the table dimensions (IllegalStateException). */
    | IncompatibleDimensions(name: string)
    /** `unitsString.toLowerCase()` on a variable without units (NullPointerException). */
    | NullUnits(name: string)
    /** `column(label)` found no column with that label (IllegalArgumentException). */
    | UnknownColumn(heading: string)
    /** A list or array was indexed outside its bounds (IndexOutOfBoundsException). */
    | IndexOutOfBounds(index: int)
    /** A dimension's namesake variable does not have rank 1 (RuntimeException). */
    | InvalidCoordinateVariable(name: string)
    /** `first()` of an empty collection (NoSuchElementException). */
    | NoSuchElement
    /** `NetcdfFile.open` could not open the path (IOException). */
    | FileNotFound(path: string)
    /** A column class was requested while no table is loaded (RuntimeException). */
    | TableUndefined
}
