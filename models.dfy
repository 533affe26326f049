/** The records the database layer reads and writes (src/models.rs, as src/database.rs uses them). */
module Models {

  /** A Telegram chat id in the text form the users table stores (`chat_id.to_string()`). */
  type ChatId = string

  /** A row of the users table; `(chatId, userName)` is its unique key. */
  datatype User = User(id: int, chatId: ChatId, userName: string)

  /** A row of the runs table. `runDatetime` is assigned by the store on insert;
      `distance` is in kilometres. */
  datatype Run = Run(id: int, distance: real, runDatetime: int, userId: int)

  /** One line of a tally: a user name, its number of runs ("medals") and their total distance. */
  datatype Score = Score(userName: string, medals: nat, distance: real)

  const U32_MODULUS: nat := 0x1_0000_0000

  /** Rust's `n as u32` for a non-negative `i64`: keeps the low 32 bits. */
  function AsU32(n: nat): (r: nat)
    ensures r < U32_MODULUS
    ensures n < U32_MODULUS ==> r == n
    ensures (n - r) % U32_MODULUS == 0
  {
    n % U32_MODULUS
  }
}
