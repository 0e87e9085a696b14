/** Status codes reported by the MAX31855 thermocouple driver's read(), and the
    message the regulator prints for each (printStatusMessage). */
module StatusCodes {

  /** The code read() returns when the sensor does not answer on the bus. */
  const NoCommunicationCode: int := 129

  /** The seven codes the message switch names explicitly. */
  const KnownCodes: set<int> := {0, 1, 2, 4, 7, 128, 129}

  /** One category per case of the switch, plus its default branch. */
  datatype Category =
    | Ok
    | OpenCircuit
    | ShortToGnd
    | ShortToVcc
    | GenericError
    | NoReadYet
    | NoCommunication
    | Unknown

  /** The code a named category stands for; Unknown stands for no single code. */
  function CodeOf(c: Category): (code: int)
    requires c != Unknown
    ensures code in KnownCodes
  {
    match c
    case Ok => 0
    case OpenCircuit => 1
    case ShortToGnd => 2
    case ShortToVcc => 4
    case GenericError => 7
    case NoReadYet => 128
    case NoCommunication => 129
  }

  /** The case split of printStatusMessage: total over every integer code. */
  function Classify(code: int): (c: Category)
    ensures c == Unknown <==> code !in KnownCodes
    ensures c != Unknown ==> CodeOf(c) == code
    ensures c == NoCommunication <==> code == NoCommunicationCode
  {
    match code
    case 0 => Ok
    case 1 => OpenCircuit
    case 2 => ShortToGnd
    case 4 => ShortToVcc
    case 7 => GenericError
    case 128 => NoReadYet
    case 129 => NoCommunication
    case _ => Unknown
  }

  /** Classify undoes CodeOf: every named category is reached from exactly its own code. */
  lemma ClassifyCodeOf(c: Category)
    requires c != Unknown
    ensures Classify(CodeOf(c)) == c
    ensures forall code :: Classify(code) == c ==> code == CodeOf(c)
  {
  }

  /** The line printed for each category. */
  function Message(c: Category): (m: string)
    ensures |m| > 0
  {
    match c
    case Ok => "OK"
    case OpenCircuit => "Thermocouple open circuit - check wiring"
    case ShortToGnd => "Thermocouple short to GND - check wiring"
    case ShortToVcc => "Thermocouple short to VCC - check wiring"
    case GenericError => "Generic error"
    case NoReadYet => "No read done yet - check wiring"
    case NoCommunication => "No communication - check wiring"
    case Unknown => "Unknown status code"
  }

  /** The eight messages are pairwise different, so the printed line identifies the category. */
  lemma MessagesDistinct(c1: Category, c2: Category)
    ensures Message(c1) == Message(c2) <==> c1 == c2
  {
  }

  /** printStatusMessage as a value: the text it prints for a code. */
  function StatusMessage(code: int): (m: string)
    ensures m == "Unknown status code" <==> code !in KnownCodes
    ensures code == 0 ==> m == "OK"
    ensures code == NoCommunicationCode ==> m == "No communication - check wiring"
  {
    var c := Classify(code);
    MessagesDistinct(c, Unknown);
    Message(c)
  }

  /** Two different known codes never print the same message. */
  lemma StatusMessageSeparatesKnownCodes(code1: int, code2: int)
    requires code1 in KnownCodes && code2 in KnownCodes && code1 != code2
    ensures StatusMessage(code1) != StatusMessage(code2)
  {
    MessagesDistinct(Classify(code1), Classify(code2));
  }
}
