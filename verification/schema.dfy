/** The two tables of the database (`users` and `todos`) and the signed-in
    principal a session carries.  Timestamps are plain integers (a point
    on the server's clock); the database's `serial` ids are naturals. */
module Schema {
  import opened Wrappers

  /** The `role` column: the enumeration `'admin' | 'user'`. */
  datatype Role = UserRole | AdminRole
  {
    /** The role as the column stores it. */
    function Name(): string {
      match this
      case UserRole => "user"
      case AdminRole => "admin"
    }
  }

  /** A row of `users`: `name` is nullable, `email` unique, `role`
      defaults to `'user'` and `approved` to `false`. */
  datatype User = User(
    id: nat,
    name: Option<string>,
    email: string,
    password: string,
    role: Role,
    approved: bool,
    createdAt: int)

  /** A row of `todos`: `description`, `dueDate` and `tags` are nullable,
      `userId` references `users.id`. */
  datatype Todo = Todo(
    id: nat,
    title: string,
    description: Option<string>,
    completed: bool,
    userId: nat,
    dueDate: Option<int>,
    tags: Option<seq<string>>,
    createdAt: int,
    updatedAt: int)

  /** The keys the tables are indexed by: `users.id`, `users.email`
      and `todos.id`. */
  function UserId(u: User): nat {
    u.id
  }

  function UserEmail(u: User): string {
    u.email
  }

  function TodoId(t: Todo): nat {
    t.id
  }

  /** The creation times the lists are ordered by. */
  function UserCreatedAt(u: User): int {
    u.createdAt
  }

  function TodoCreatedAt(t: Todo): int {
    t.createdAt
  }

  /** The user of a signed-in session (`session.user`). */
  datatype Principal = Principal(
    id: nat,
    email: string,
    name: Option<string>,
    role: Role,
    approved: bool)
  {
    predicate IsAdmin() {
      role == AdminRole
    }
  }

  /** `session`, absent when nobody is signed in. */
  type Session = Option<Principal>
}
