/** Result types for the error unions and optionals of the runtime. */
module Outcomes {
  datatype Option<+T> = None | Some(value: T)

  datatype Result<+T, +E> = Ok(value: T) | Err(error: E)

  /** The source's error names, which share one global namespace. */
  datatype Error =
    // slot directory
    | SlotOutOfRange | SlotInactive | WrongGeneration | SlotSpaceExhausted
    // pools
    | OutOfMemory | InvalidConfig | CapacityOverflow | StaleLease
    // descriptor queues and control buffers
    | MalformedControl | DescriptorBudgetExceeded | ControlBufferTooSmall | Overflow | Empty
    // wire decoding and framing
    | NullSender | InvalidSize | UnalignedSize | UnexpectedEnd | InvalidString | TrailingArguments
    | MessageTooLarge
    // codecs
    | UnknownOpcode | UnexpectedNull | NullObject | UnknownObject | WrongInterface | LengthOverflow | InvalidEnumType
    // transmit queue
    | EmptyMessage | ByteBudgetExceeded | SendAlreadyActive | NoSendActive | InvalidCompletion
    | ReservationActive | ReservationOverflow
    // connection
    | Closing | ProtocolErrorPending | NoProtocolError | CancelAlreadyActive | CancelNotActive
    | ReceiveAlreadyActive | ReceiveNotActive | UnexpectedCompletion | StaleCompletion | IoFailure
    | SubmissionQueueFull | ActorBusy | InvalidMessage | Disconnected
    // an addition that leaves the machine word, which the source traps
    | ArithmeticTrap
    // objects, dispatch and handlers
    | InvalidObjectVersion | UnsupportedVersion | DestroyedObject | WrongObject | StaleHandle
    | ServerProtocolError | HandlerFailure
}
