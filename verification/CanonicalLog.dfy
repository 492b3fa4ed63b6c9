// Canonical session events as the evidence checkers read them.
module CanonicalLog {
  import opened Text
  import opened Wrappers

  // `user` is the text of a user message or activated submission, if the event is one;
  // `detail` stands for the rest of the event.
  datatype Event = Event(session: string, sequence: int, user: Option<string>, detail: string)

  // A user record as it is shown to a provider: attributed by its sequence.
  function Attributed(sequence: int, text: string): string {
    "#" + Decimal(sequence) + " user:\n" + text
  }

  // An attributed record reads back: a hash sign, the digits of its sequence, the mark of a user, the text.
  lemma {:induction false} AttributedReads(sequence: nat, text: string)
    ensures var record, k := Attributed(sequence, text), 1 + |Digits(sequence)|;
            && |record| == k + 7 + |text| && record[..1] == "#" && ParseDigits(record[1..k]) == Some(sequence)
            && record[k..k + 7] == " user:\n" && record[k + 7..] == text
  {
    DigitsParse(sequence);
    assert Attributed(sequence, text)[1..1 + |Digits(sequence)|] == Digits(sequence);
  }
}
