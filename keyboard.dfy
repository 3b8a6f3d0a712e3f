/** The keys the widgets react to; every other key is `OtherKey`. */
module Keyboard {

  datatype Key = Enter | Escape | Tab | Space | OtherKey
}
