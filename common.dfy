/** Shared vocabulary: optional values, handler outcomes, Python equality across
    classes, and the sequence helpers that model SQL `.first()`, `WHERE` and
    `OFFSET/LIMIT` over a table held as a sequence of rows. */
module Common {

  datatype Option<T> = None | Some(value: T) {
    function GetOr(default: T): T {
      match this
      case Some(v) => v
      case None => default
    }
  }

  /** A field of a partial-update request body: left out of the body, sent
      as JSON `null`, or sent with a value. `model_dump(exclude_unset=True)`
      keeps the last two, so a field sent as `null` is assigned None. */
  datatype Sent<T> = Unset | Null | Given(value: T) {
    /** The column's value after the update, for a nullable column whose
        value was `current`. */
    function Over(current: Option<T>): Option<T> {
      match this
      case Unset => current
      case Null => None
      case Given(v) => Some(v)
    }
  }

  /** What a request handler produces: its value, or the HTTPException it raises
      (status code and detail). An exception the handler does not catch is the
      framework's 500 response. */
  datatype Outcome<T> = Ok(value: T) | Err(code: int, detail: string)

  const InternalServerError := "Internal Server Error"

  /** A value as Python's `==` sees it: values of different classes never
      compare equal (a `uuid.UUID` is never equal to a `str`, even when the str
      spells the same UUID). Dafny's datatype equality behaves the same way. */
  datatype PyValue = PyStr(s: string) | PyUuid(hex: string)

  /** Python truthiness of a str: only the empty string is false. */
  predicate Truthy(s: string) {
    s != []
  }

  /** Index of the first element satisfying `matches`: what `.first()` returns
      for a query over a table held as a sequence of rows. */
  function FirstIndex<T>(s: seq<T>, matches: T -> bool): (r: Option<nat>)
    ensures r.Some? ==> r.value < |s| && matches(s[r.value])
    ensures r.Some? ==> forall j :: 0 <= j < r.value ==> !matches(s[j])
    ensures r.None? <==> forall j :: 0 <= j < |s| ==> !matches(s[j])
  {
    if s == [] then None
    else if matches(s[0]) then Some(0)
    else
      match FirstIndex(s[1..], matches)
      case None => None
      case Some(k) => Some(k + 1)
  }

  /** The elements satisfying `keep`, in order: a `WHERE` clause. */
  function Filter<T(!new)>(s: seq<T>, keep: T -> bool): (r: seq<T>)
    ensures |r| <= |s|
    ensures forall x :: x in r <==> x in s && keep(x)
    ensures forall x :: multiset(r)[x] == if keep(x) then multiset(s)[x] else 0
  {
    if s == [] then []
    else
      assert s == [s[0]] + s[1..];
      if keep(s[0]) then [s[0]] + Filter(s[1..], keep)
      else Filter(s[1..], keep)
  }

  /** `OFFSET skip LIMIT limit`: at most `limit` rows, taken in order from
      position `skip` on. */
  function Page<T>(s: seq<T>, skip: nat, limit: nat): (r: seq<T>)
    ensures |r| == if skip >= |s| then 0 else if |s| - skip < limit then |s| - skip else limit
    ensures forall i :: 0 <= i < |r| ==> r[i] == s[skip + i]
  {
    if skip >= |s| then []
    else if |s| - skip < limit then s[skip..]
    else s[skip..skip + limit]
  }

  /** No element occurs twice. */
  predicate NoDuplicates<T(==)>(s: seq<T>) {
    forall i, j :: 0 <= i < j < |s| ==> s[i] != s[j]
  }

  /** The elements of `s` with later repetitions dropped. */
  function Distinct<T(==,!new)>(s: seq<T>): (r: seq<T>)
    ensures NoDuplicates(r)
    ensures forall x :: x in r <==> x in s
    ensures |r| <= |s|
  {
    if s == [] then []
    else
      var prefix := Distinct(s[..|s| - 1]);
      var last := s[|s| - 1];
      assert s == s[..|s| - 1] + [last];
      if last in prefix then prefix else prefix + [last]
  }
}
