/** The two entities of the app (types/common.type.ts), the seeded default
    categories (constants/DefaultCategories.ts) and the user-facing notice that
    stands for a native `Alert.alert` call. */
module Types {

  /** A coloured tag that todos refer to by `id`. */
  datatype Category = Category(id: string, name: string, color: string, createdAt: string)

  /** A task. `categories` holds category ids; nothing checks they exist. */
  datatype Todo = Todo(id: string, text: string, completed: bool, createdAt: string, categories: seq<string>)

  /** An alert shown to the user: a title and a message. */
  datatype Notice = Notice(title: string, message: string)

  /** The ids of a list of todos, position by position. */
  function Ids(todos: seq<Todo>): (r: seq<string>)
    ensures |r| == |todos|
    ensures forall i :: 0 <= i < |todos| ==> r[i] == todos[i].id
  {
    seq(|todos|, i requires 0 <= i < |todos| => todos[i].id)
  }

  /** No two todos share an id. Ids come from `Date.now()`, so this is only
      best-effort in the app; the model states where it is needed. */
  predicate DistinctIds(todos: seq<Todo>) {
    forall i, j :: 0 <= i < j < |todos| ==> todos[i].id != todos[j].id
  }

  /** The three `new Date().toISOString()` readings taken, one per entry, when
      the constants module was first evaluated. They may differ from each other. */
  datatype SeedTimes = SeedTimes(personal: string, trabajo: string, compras: string)

  /** The fixed seed list: `personal`, `trabajo`, `compras`, each stamped with
      its own reading of the clock. */
  function DefaultCategories(seededAt: SeedTimes): (r: seq<Category>)
    ensures |r| == 3
    ensures [r[0].id, r[1].id, r[2].id] == ["personal", "trabajo", "compras"]
    ensures [r[0].name, r[1].name, r[2].name] == ["Personal", "Trabajo", "Compras"]
    ensures [r[0].color, r[1].color, r[2].color] == ["#FF9500", "#007AFF", "#4CD964"]
    ensures [r[0].createdAt, r[1].createdAt, r[2].createdAt]
      == [seededAt.personal, seededAt.trabajo, seededAt.compras]
  {
    [ Category("personal", "Personal", "#FF9500", seededAt.personal),
      Category("trabajo", "Trabajo", "#007AFF", seededAt.trabajo),
      Category("compras", "Compras", "#4CD964", seededAt.compras) ]
  }
}
