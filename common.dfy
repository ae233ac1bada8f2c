/** Vocabulary shared by every route and page: JavaScript truthiness of
    request fields, the outcome of a database read, and HTTP replies. */
module Common {

  type Id = string

  datatype Option<+T> = None | Some(value: T)

  /** A scalar as it arrives in a JSON request body; `Missing` is an absent key. */
  datatype Json = Missing | Null | Bool(b: bool) | Num(n: int) | Str(s: string)

  /** JavaScript truthiness: what `!!v` computes. */
  predicate Truthy(v: Json)
  {
    match v
    case Missing => false
    case Null => false
    case Bool(b) => b
    case Num(n) => n != 0
    case Str(s) => s != ""
  }

  /** A string field passes a `!field` check: it is present and not empty. */
  predicate Given(s: Option<string>)
  {
    s.Some? && s.value != ""
  }

  /** What `field || ""` yields for a string field. */
  function OrEmpty(s: Option<string>): string
  {
    if s.Some? then s.value else ""
  }

  /** What `n || 1` yields for a numeric field: absent and 0 both become 1. */
  function OrOne(n: Option<int>): int
  {
    if n.Some? && n.value != 0 then n.value else 1
  }

  /** The outcome of one read from the database. */
  datatype Fetch<+T> = Rows(rows: T) | StorageError(message: string)

  /** An HTTP reply: a status with a JSON body, or a status with an error message. */
  datatype Reply<+T> = Ok(status: int, body: T) | Err(status: int, error: string)

  /** `err.message || "Server error"`, the message of a caught storage error. */
  function ServerError(message: string): string
  {
    if message == "" then "Server error" else message
  }

  function DigitChar(d: nat): char
    requires d < 10
  {
    "0123456789"[d]
  }

  /** Decimal rendering of a natural number (database serial ids, timestamps in paths). */
  function Decimal(n: nat): string
  {
    if n < 10 then [DigitChar(n)] else Decimal(n / 10) + [DigitChar(n % 10)]
  }

  /** Exactly the numbers below ten render as one character. */
  lemma DecimalOneDigit(n: nat)
    ensures |Decimal(n)| == 1 <==> n < 10
  {
    if n >= 10 {
      assert |Decimal(n)| == |Decimal(n / 10)| + 1;
    }
  }

  /** Distinct numbers render as distinct strings, so serial ids rendered by
      `Decimal` never collide. */
  lemma {:induction false} DecimalInjective(n: nat, m: nat)
    ensures Decimal(n) == Decimal(m) ==> n == m
  {
    DecimalOneDigit(n);
    DecimalOneDigit(m);
    if Decimal(n) == Decimal(m) {
      if n >= 10 && m >= 10 {
        var s := Decimal(n);
        assert s[..|s| - 1] == Decimal(n / 10) && s[|s| - 1] == DigitChar(n % 10);
        assert s[..|s| - 1] == Decimal(m / 10) && s[|s| - 1] == DigitChar(m % 10);
        DecimalInjective(n / 10, m / 10);
      }
    }
  }

  /** The rows whose `key` equals `k` (with `equal`) or differs from `k`
      (without), in table order: the database's `.eq(column, k)` filter,
      and what a delete by that filter leaves behind. */
  function Where<T(!new)>(rows: seq<T>, key: T -> Id, k: Id, equal: bool): (r: seq<T>)
    ensures |r| <= |rows|
    ensures forall x :: x in r <==> x in rows && (key(x) == k) == equal
  {
    if rows == [] then []
    else if (key(rows[0]) == k) == equal then [rows[0]] + Where(rows[1..], key, k, equal)
    else Where(rows[1..], key, k, equal)
  }

  lemma {:induction false} WhereAppend<T(!new)>(a: seq<T>, b: seq<T>, key: T -> Id, k: Id, equal: bool)
    ensures Where(a + b, key, k, equal) == Where(a, key, k, equal) + Where(b, key, k, equal)
  {
    if a == [] {
      assert a + b == b;
    } else {
      var ab := a + b;
      assert ab[0] == a[0] && ab[1..] == a[1..] + b;
      WhereAppend(a[1..], b, key, k, equal);
      if (key(a[0]) == k) == equal {
        calc {
          Where(ab, key, k, equal);
          [a[0]] + Where(a[1..] + b, key, k, equal);
          [a[0]] + (Where(a[1..], key, k, equal) + Where(b, key, k, equal));
          ([a[0]] + Where(a[1..], key, k, equal)) + Where(b, key, k, equal);
        }
      }
    }
  }

  lemma {:induction false} WhereAll<T(!new)>(rows: seq<T>, key: T -> Id, k: Id, equal: bool)
    requires forall x :: x in rows ==> (key(x) == k) == equal
    ensures Where(rows, key, k, equal) == rows
  {
    if rows != [] {
      WhereAll(rows[1..], key, k, equal);
    }
  }

  lemma {:induction false} WhereNone<T(!new)>(rows: seq<T>, key: T -> Id, k: Id, equal: bool)
    requires forall x :: x in rows ==> (key(x) == k) != equal
    ensures Where(rows, key, k, equal) == []
  {
    if rows != [] {
      WhereNone(rows[1..], key, k, equal);
    }
  }
}

/** Rows of the `modules` and `lessons` tables as the pages and routes read them. */
module Catalog {
  import opened Common

  /** A `modules` row; the routes pass every column through untouched. */
  datatype Module = Module(id: Id, title: string, description: string, level: int)

  /** A `lessons` row; lists of lessons arrive ordered by `orderIndex`. */
  datatype Lesson = Lesson(id: Id, moduleId: Id, title: string, orderIndex: int)
}
