/** The shipper's checkpoint: what any state file is read as, and what is written. */
module ShipperState {
  import opened Wrappers

  datatype Identity = Identity(ino: nat, dev: nat)

  /** The identity is missing in files written by older versions. */
  datatype State = State(offset: nat, identity: Option<Identity>)

  /** A parsed JSON value, as far as the reader tells them apart; a boolean is not an integer. */
  datatype Json = Integer(n: int) | Object(fields: map<string, Json>) | OtherJson

  /** The state file; a text that int() takes is a numeral, whatever JSON would make of it. */
  datatype StateFile = Absent | Unreadable | Undecodable | Empty | Numeral(n: int) | NotJson | Text(json: Json)

  const START := State(0, None)

  function NonNegativeInt(value: Json): Option<nat> {
    if value.Integer? && value.n >= 0 then Some(value.n) else None
  }

  function Field(fields: map<string, Json>, name: string): Option<nat> {
    if name in fields then NonNegativeInt(fields[name]) else None
  }

  /** A stored identity counts only if both halves are usable. */
  function IdentityFrom(fields: map<string, Json>): Option<Identity> {
    match (Field(fields, "st_ino"), Field(fields, "st_dev"))
    case (Some(ino), Some(dev)) => Some(Identity(ino, dev))
    case _ => None
  }

  /** None: bytes that are not UTF-8 raise what the reader does not catch. */
  function Load(file: StateFile): Option<State> {
    match file
    case Undecodable => None
    case Absent => Some(START)
    case Unreadable => Some(START)
    case Empty => Some(START)
    case NotJson => Some(START)
    case Numeral(n) => Some(if n < 0 then START else State(n, None))
    case Text(json) =>
      if !json.Object? then Some(START)
      else
        match Field(json.fields, "offset")
        case None => Some(START)
        case Some(offset) => Some(State(offset, IdentityFrom(json.fields)))
  }

  /** What replaces the state file. */
  function Written(s: State): StateFile {
    var offset := map["offset" := Integer(s.offset)];
    match s.identity
    case None => Text(Object(offset))
    case Some(id) => Text(Object(offset["st_ino" := Integer(id.ino)]["st_dev" := Integer(id.dev)]))
  }

  /** What is written is what is read back. */
  lemma LoadWritten(s: State)
    ensures Load(Written(s)) == Some(s)
  {
    var fields := Written(s).json.fields;
    assert Field(fields, "offset") == Some(s.offset);
    if s.identity.Some? {
      assert Field(fields, "st_ino") == Some(s.identity.value.ino) && Field(fields, "st_dev") == Some(s.identity.value.dev);
    }
  }

  /** The file holds this number as its offset. */
  predicate HoldsOffset(file: StateFile, offset: nat) {
    || file == Numeral(offset)
    || (file.Text? && file.json.Object? && "offset" in file.json.fields && file.json.fields["offset"] == Integer(offset))
  }

  /**
   Records are skipped only on the word of a file that holds the offset: any
   other file, however damaged, is replayed from the start, or, where its bytes
   are no text at all, ends the process. An identity is never guessed, and a
   damaged one costs no offset.
   */
  lemma OnlyAHeldOffsetSkips(file: StateFile, offset: nat)
    requires offset > 0
    ensures Load(file).Some? && Load(file).value.offset == offset <==> HoldsOffset(file, offset)
    ensures Load(file).None? <==> file.Undecodable?
    ensures Load(file).Some? && Load(file).value.identity.Some? ==>
      file.Text? && file.json.Object? && Load(file).value.identity == IdentityFrom(file.json.fields)
  {
  }
}
