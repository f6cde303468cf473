/** The task record of the Schedulr task store, its status, the clock values
    it carries, and the whitespace trimming applied to the add-task form. */
module TaskModel {

  datatype Option<T> = None | Some(value: T)

  /** The two status strings the store ever writes: 'pending' and 'completed'. */
  datatype Status = Pending | Completed

  /** A clock value in milliseconds since the Unix epoch (UTC). A due date
      'YYYY-MM-DD' is the millisecond value of that day's UTC midnight, which
      is what `new Date('YYYY-MM-DD')` yields. */
  type Time = int

  const DayMs: int := 86_400_000
  const WeekMs: int := 7 * DayMs

  /** One task of the in-memory `tasks` array. `updatedAt` is absent until the
      first status toggle. */
  datatype Task = Task(
    id: int,
    title: string,
    description: string,
    dueDate: Time,
    status: Status,
    createdAt: Time,
    updatedAt: Option<Time>)

  /** The toggle rule: a completed task becomes pending, anything else completed. */
  function Flip(st: Status): (r: Status)
    ensures r != st
    ensures r.Completed? <==> st.Pending?
  {
    if st == Completed then Pending else Completed
  }

  /** The characters JavaScript's String.prototype.trim removes: WhiteSpace
      (tab, vertical tab, form feed, space, no-break space, BOM and the Zs
      space separators) and LineTerminator (LF, CR, LS, PS). */
  predicate IsJsWhitespace(c: char)
  {
    c == '\U{0009}' || c == '\U{000B}' || c == '\U{000C}' || c == ' ' ||
    c == '\U{00A0}' || c == '\U{FEFF}' || c == '\U{1680}' ||
    ('\U{2000}' <= c <= '\U{200A}') || c == '\U{202F}' || c == '\U{205F}' || c == '\U{3000}' ||
    c == '\U{000A}' || c == '\U{000D}' || c == '\U{2028}' || c == '\U{2029}'
  }

  /** `s` with its leading whitespace removed; `TrimStartDrops` shows it is
      the suffix of `s` after the leading whitespace. */
  function TrimStart(s: string): (r: string)
    ensures |r| <= |s|
    ensures r == [] || !IsJsWhitespace(r[0])
  {
    if s != [] && IsJsWhitespace(s[0]) then TrimStart(s[1..]) else s
  }

  /** `s` with its trailing whitespace removed; `TrimEndDrops` shows it is the
      prefix of `s` before the trailing whitespace. */
  function TrimEnd(s: string): (r: string)
    ensures |r| <= |s|
    ensures r == [] || !IsJsWhitespace(r[|r| - 1])
  {
    if s != [] && IsJsWhitespace(s[|s| - 1]) then TrimEnd(s[..|s| - 1]) else s
  }

  /** Trimming the start keeps a suffix and drops only whitespace. */
  lemma {:induction false} TrimStartDrops(s: string)
    ensures TrimStart(s) == s[|s| - |TrimStart(s)|..]
    ensures forall k :: 0 <= k < |s| - |TrimStart(s)| ==> IsJsWhitespace(s[k])
  {
    if s != [] && IsJsWhitespace(s[0]) {
      TrimStartDrops(s[1..]);
      assert forall k :: 0 < k < |s| ==> s[k] == s[1..][k - 1];
    }
  }

  /** Trimming the end keeps a prefix and drops only whitespace. */
  lemma {:induction false} TrimEndDrops(s: string)
    ensures TrimEnd(s) == s[..|TrimEnd(s)|]
    ensures forall k :: |TrimEnd(s)| <= k < |s| ==> IsJsWhitespace(s[k])
  {
    if s != [] && IsJsWhitespace(s[|s| - 1]) {
      TrimEndDrops(s[..|s| - 1]);
      assert forall k :: 0 <= k < |s| - 1 ==> s[k] == s[..|s| - 1][k];
    }
  }

  /** String.prototype.trim: whitespace removed at both ends. */
  function Trim(s: string): (r: string)
    ensures |r| <= |s|
    ensures r == [] || (!IsJsWhitespace(r[0]) && !IsJsWhitespace(r[|r| - 1]))
  {
    TrimEndDrops(TrimStart(s));
    TrimEnd(TrimStart(s))
  }

  /** A trimmed string is empty exactly when the input is all whitespace;
      this is the "required field left blank" test of the add-task form. */
  lemma TrimEmptyIff(s: string)
    ensures Trim(s) == [] <==> forall k :: 0 <= k < |s| ==> IsJsWhitespace(s[k])
  {
    var t := TrimStart(s);
    TrimStartDrops(s);
    TrimEndDrops(t);
    if Trim(s) == [] {
      forall k | 0 <= k < |s| ensures IsJsWhitespace(s[k]) {
        if k >= |s| - |t| {
          assert s[k] == t[k - (|s| - |t|)];
        }
      }
    } else {
      assert Trim(s)[0] == t[0] == s[|s| - |t|];
    }
  }

  /** Trim(s) is `s` with its leading and trailing whitespace cut off: the
      slice `s[a..b]`, where everything before `a` and from `b` on is
      whitespace. */
  lemma TrimDrops(s: string)
    ensures var a := |s| - |TrimStart(s)|; var b := a + |Trim(s)|;
      && 0 <= a <= b <= |s|
      && Trim(s) == s[a..b]
      && (forall k :: 0 <= k < a ==> IsJsWhitespace(s[k]))
      && (forall k :: b <= k < |s| ==> IsJsWhitespace(s[k]))
  {
    var t := TrimStart(s);
    TrimStartDrops(s);
    TrimEndDrops(t);
    var a := |s| - |t|;
    var b := a + |Trim(s)|;
    assert Trim(s) == t[..|Trim(s)|];
    assert t[..|Trim(s)|] == s[a..b];
    forall k | b <= k < |s| ensures IsJsWhitespace(s[k]) {
      assert s[k] == t[k - a];
    }
  }

  /** A string without whitespace at either end is its own trim. */
  lemma TrimKeepsTrimmed(s: string)
    requires s == [] || (!IsJsWhitespace(s[0]) && !IsJsWhitespace(s[|s| - 1]))
    ensures Trim(s) == s
  {
    assert TrimStart(s) == s;
    assert TrimEnd(s) == s;
  }

  /** Trimming twice is the same as trimming once. */
  lemma TrimIdempotent(s: string)
    ensures Trim(Trim(s)) == Trim(s)
  {
    TrimKeepsTrimmed(Trim(s));
  }
}
