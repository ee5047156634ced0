/** The exceptions the queue service throws, as values. */
module Outcome {

  datatype Error =
    | BadDatabase       // RedisQueueOptions.DefaultDatabase < 0
    | EmptyHost         // RedisQueueOptions.Host null or empty
    | BadPort           // RedisQueueOptions.Port < 0
    | EmptyMessage      // msg null or empty
    | ExpiryTooSmall    // expiry multiplier <= 1
    | ExpiryTooLong     // the expiry does not fit a TimeSpan (OverflowException)
    | CountNotPositive  // requested message count <= 0
    | WrongType         // the store's WRONGTYPE reply: the key holds the other structure

  datatype Result<T> = Ok(value: T) | Err(error: Error)

  datatype Option<T> = None | Some(value: T)
}
