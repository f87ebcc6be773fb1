/** The records kept in the platform's four JSON tables, as values.
    Field names follow the stored keys: usuario, senha, tipo, genero, idade
    (User); nome, conteudo, nivel (Course); usuario, curso, nivel, quantidade,
    tempo, primeiro_acesso, ultimo_acesso (AccessRecord); usuario, curso,
    nivel, nota, timestamp (Rating). */
module Records {
  import opened Base

  const Beginner: string := "iniciante"
  const Intermediate: string := "intermediário"
  const Advanced: string := "avançado"

  /** The three course levels, in menu order. */
  const Levels: seq<string> := [Beginner, Intermediate, Advanced]

  /** The level menu: "1", "2" and "3" choose a level, anything else none. */
  function LevelForOption(option: string): (r: Option<string>)
    ensures r.Some? <==> option == "1" || option == "2" || option == "3"
    ensures r.Some? ==> r.value in Levels
    ensures r.Some? ==> r.value == Levels[(option[0] as int) - ('1' as int)]
  {
    if option == "1" then Some(Beginner)
    else if option == "2" then Some(Intermediate)
    else if option == "3" then Some(Advanced)
    else None
  }

  /** A user account. The older registration stores no age, and a loaded
      table may lack a gender, so both are optional. */
  datatype User = User(
    name: string,          // usuario
    passwordHash: string,  // senha
    kind: string,          // tipo
    gender: Option<string>, // genero
    age: Option<int>)      // idade

  const UserKind: string := "usuario"

  datatype Course = Course(
    name: string,     // nome
    content: string,  // conteudo
    level: string)    // nivel

  /** One (user, course) access summary kept by the current variant. */
  datatype AccessRecord = AccessRecord(
    user: string,         // usuario
    course: string,       // curso
    level: string,        // nivel
    visits: int,          // quantidade
    time: real,           // tempo (seconds)
    firstAccess: string,  // primeiro_acesso
    lastAccess: string)   // ultimo_acesso

  /** An entry of an access table: either a per-course summary or the older
      variant's one-line log of a catalogue visit ({usuario, curso_count}). */
  datatype AccessEntry =
    | Visit(record: AccessRecord)
    | CatalogueView(user: string, courseCount: int)

  datatype Rating = Rating(
    user: string,               // usuario
    course: string,             // curso
    level: string,              // nivel, as the course had it when rated
    score: int,                 // nota
    timestamp: Option<string>)  // absent in the older variant
}
