/** The record shapes of src/types.ts that the scheduling core passes around. */
module Types {
  import opened Wrappers

  /** `timeOfDay` of an intent, and the window name `computeFreeSlots` takes. */
  datatype Timeframe = Morning | Afternoon | Evening | AnyTime

  /** A bookable slot: a date string, minutes since midnight and their display form. */
  datatype TimeSlot = TimeSlot(
    date: string,
    startMin: int,
    endMin: int,
    displayStart: string,
    displayEnd: string)

  /** A calendar entry as the parser stores it. */
  datatype CalendarEvent = CalendarEvent(date: string, startMin: int, endMin: int, title: string)

  datatype ConstraintKind = DayOfWeek | Relative | Absolute

  datatype Modifier = This | Next | Coming | Last

  /** A time constraint of an intent. Its kind is a field because the date
      resolver rewrites it in place. */
  class TimeConstraint {
    var kind: ConstraintKind
    const value: string
    const modifier: Option<Modifier>

    constructor (kind: ConstraintKind, value: string, modifier: Option<Modifier>)
      ensures this.kind == kind && this.value == value && this.modifier == modifier
    {
      this.kind := kind;
      this.value := value;
      this.modifier := modifier;
    }
  }

  /** The fields of an extracted intent that the deterministic nodes read
      (participants only reach the language model and are not kept). */
  datatype Intent = Intent(
    durationMin: int,
    timeConstraint: TimeConstraint,
    timeOfDay: Timeframe,
    specificTime: Option<string>,
    rawRequest: string)
}
