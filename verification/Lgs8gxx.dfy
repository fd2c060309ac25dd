/** The demodulators lgs8gxx.c drives. */
module Lgs8gxx {

  datatype Product = Lgs8913 | Lgs8gl5 | Lgs8g42 | Lgs8g52 | Lgs8g54 | Lgs8g75
}
