/** The ESP-IDF status codes (esp_err_t) that the modelled functions return. */
module Esp {

  datatype EspErr =
    | Ok              // ESP_OK
    | ErrInvalidArg   // ESP_ERR_INVALID_ARG
    | ErrTimeout      // ESP_ERR_TIMEOUT
    | ErrInvalidCrc   // ESP_ERR_INVALID_CRC
    | Other(code: int) // any other esp_err_t, such as a bus driver's failure;
                       // `code` is never 0 (ESP_OK) nor the code of a named case

  /** A value or the status code that replaced it. */
  datatype Result<T> = Success(value: T) | Failure(error: EspErr)
}
