/** How a kernel operation ends: normally, or in panic(), which halts the machine. */
module Panics {

  datatype Reason =
    | BufferNotBusy
    | NothingToDo
    | WrongDevice
    | SectorOutOfRange
    | BwriteUnlocked
    | BrelseUnlocked
    | OutOfBuffers
    | TransactionTooBig
    | OutsideTransaction
    | OutOfBlocks
    | FreeingFreeBlock
    | BmapOutOfRange

  datatype Outcome = Done | Panic(why: Reason)
}
