/** The records that travel between the server and the browser. */
module Records {

  /** One weekly meeting of a course section and group, with the fields the
      server builds for every spreadsheet row (app.py:310-319) and the browser
      reads. Times and day are the spreadsheet's text. */
  datatype Block = Block(
    curso: string,
    nombre: string,
    seccion: int,
    grupo: int,
    dia: string,
    horaIni: string,
    horaFin: string,
    campus: string)

  /** The identity the grid uses for a block: course, section, group, start
      time and day label (static/app.js:647). */
  datatype BlockId = BlockId(curso: string, seccion: int, grupo: int, horaIni: string, dia: string)

  function Key(b: Block): BlockId {
    BlockId(b.curso, b.seccion, b.grupo, b.horaIni, b.dia)
  }

  /** A section's group column: a plain group number, or the '+'-joined
      numbers of a combined option. */
  datatype GroupLabel = GroupNo(n: int) | Joined(text: string)

  datatype SectionInfo = SectionInfo(course: string, section: int, group: GroupLabel)

  datatype ConflictKind = Overlap | TravelTime

  /** Kind of an accepted overlap with BACH1121: 'completo' or 'parcial'. */
  datatype ToponType = Completo | Parcial

  /** One schedule candidate as generate_schedules returns it (app.py:468-478).
      The two type lists, built from Python sets, are sets here. */
  datatype Schedule = Schedule(
    sections: seq<SectionInfo>,
    blocks: seq<Block>,
    score: real,
    hasConflicts: bool,
    hasValidTopones: bool,
    conflicts: seq<string>,
    conflictTypes: set<ConflictKind>,
    validTopones: seq<string>,
    validToponTypes: set<ToponType>)
}
