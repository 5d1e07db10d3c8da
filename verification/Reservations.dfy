/** A reservation record as the server stores it and the page reads it back. */
module Reservations {
  import opened Wrappers

  /** `duration` and `displayTime` are sent by the page but the server never requires
      them, so a stored record may lack either. */
  datatype Booking = Booking(
    room: string,
    date: string,
    startTime: string,
    endTime: string,
    displayTime: Option<string>,
    duration: Option<int>)
}
