/** Relay contact editing: one fixture terminal is held by at most one contact,
    and the size of a switching matrix is coded in its contact names. */
module RelayContacts {
  import opened Graphs
  import opened Options

  /** Contact name -> bound terminal; an unbound contact maps to "". */
  type Contacts = map<string, string>

  datatype Relay = Relay(id: string, kind: string, controlSignal: string, contacts: Contacts, closed: bool)

  datatype Occupant = Occupant(relayId: string, contact: string)

  /** The terminal a contact holds, if any. */
  function Bound(r: Relay, contact: string): Option<string> {
    if contact in r.contacts && r.contacts[contact] != "" then Some(r.contacts[contact]) else None
  }

  // ----- occupancy -----

  /** Contact c of the i-th relay holds the terminal and is not the given one. */
  predicate Occupies(relays: seq<Relay>, i: nat, c: string, terminal: string, except: Occupant) {
    i < |relays| && Bound(relays[i], c) == Some(terminal) && Occupant(relays[i].id, c) != except
  }

  ghost predicate HeldByAnother(relays: seq<Relay>, terminal: string, except: Occupant) {
    exists i: nat, c :: Occupies(relays, i, c, terminal, except)
  }

  /** And no earlier relay has such a contact. */
  ghost predicate FirstOccupies(relays: seq<Relay>, i: nat, c: string, terminal: string, except: Occupant) {
    Occupies(relays, i, c, terminal, except) && forall k, d :: 0 <= k < i ==> !Occupies(relays, k, d, terminal, except)
  }

  /** Searches all contacts except the given one; object keys are visited in some order. */
  method FindOccupant(relays: seq<Relay>, terminal: string, except: Occupant) returns (r: Option<Occupant>)
    ensures r.Some? <==> HeldByAnother(relays, terminal, except)
    ensures r.Some? ==> exists i: nat, c ::
      FirstOccupies(relays, i, c, terminal, except) && r.value == Occupant(relays[i].id, c)
  {
    for i := 0 to |relays|
      invariant forall k, c :: 0 <= k < i ==> !Occupies(relays, k, c, terminal, except)
    {
      var keys := relays[i].contacts.Keys;
      while keys != {}
        invariant keys <= relays[i].contacts.Keys
        invariant forall c :: c !in keys ==> !Occupies(relays, i, c, terminal, except)
        decreases keys
      {
        var c :| c in keys;
        keys := keys - {c};
        if Occupies(relays, i, c, terminal, except) {
          assert FirstOccupies(relays, i, c, terminal, except);
          return Some(Occupant(relays[i].id, c));
        }
      }
    }
    return None;
  }

  // ----- the transformations -----

  /** Contacts of the first relay with the id. */
  function ContactsOf(relays: seq<Relay>, relayId: string): Contacts {
    if relays == [] then map[]
    else if relays[0].id == relayId then relays[0].contacts
    else ContactsOf(relays[1..], relayId)
  }

  function WithContacts(relays: seq<Relay>, relayId: string, contacts: Contacts): seq<Relay> {
    seq(|relays|, i requires 0 <= i < |relays| =>
      if relays[i].id == relayId then relays[i].(contacts := contacts) else relays[i])
  }

  function Bind(relays: seq<Relay>, relayId: string, contact: string, terminal: string): seq<Relay> {
    WithContacts(relays, relayId, ContactsOf(relays, relayId)[contact := terminal])
  }

  function Unbind(relays: seq<Relay>, relayId: string, contact: string): seq<Relay> {
    WithContacts(relays, relayId, ContactsOf(relays, relayId)[contact := ""])
  }

  function Toggle(relays: seq<Relay>, relayId: string): seq<Relay> {
    seq(|relays|, i requires 0 <= i < |relays| =>
      if relays[i].id == relayId then relays[i].(closed := !relays[i].closed) else relays[i])
  }

  /** The first relay with the id is the k-th. */
  ghost predicate FirstRelay(relays: seq<Relay>, id: string, k: int) {
    0 <= k < |relays| && relays[k].id == id && forall j :: 0 <= j < k ==> relays[j].id != id
  }

  /** One contact of the relay with the id holds x now. All else is as it was:
      its other contacts, its other fields, every other relay. If several relays
      have the id, each takes its contacts from the first. */
  ghost predicate OnlyContact(relays: seq<Relay>, next: seq<Relay>, id: string, contact: string, x: string) {
    && |next| == |relays|
    && (forall i :: 0 <= i < |relays| && relays[i].id != id ==> next[i] == relays[i])
    && (forall i, k :: 0 <= i < |relays| && relays[i].id == id && FirstRelay(relays, id, k) ==>
         next[i] == relays[i].(contacts := relays[k].contacts[contact := x]))
  }

  lemma {:induction false} ContactsOfFirst(relays: seq<Relay>, id: string, k: int)
    requires FirstRelay(relays, id, k)
    ensures ContactsOf(relays, id) == relays[k].contacts
  {
    if k > 0 {
      assert relays[0].id != id;
      ContactsOfFirst(relays[1..], id, k - 1);
    }
  }

  lemma OneContactChanges(relays: seq<Relay>, id: string, contact: string, x: string)
    ensures OnlyContact(relays, WithContacts(relays, id, ContactsOf(relays, id)[contact := x]), id, contact, x)
  {
    forall k | FirstRelay(relays, id, k) ensures ContactsOf(relays, id) == relays[k].contacts {
      ContactsOfFirst(relays, id, k);
    }
  }

  /** An unbind empties that contact and changes nothing else. */
  lemma UnbindClears(relays: seq<Relay>, id: string, contact: string)
    ensures OnlyContact(relays, Unbind(relays, id, contact), id, contact, "")
  {
    OneContactChanges(relays, id, contact, "");
  }

  /** A toggle flips the state of the relays with the id and nothing else, so
      toggling twice changes nothing. */
  lemma ToggleFlips(relays: seq<Relay>, id: string)
    ensures var next := Toggle(relays, id);
      && |next| == |relays|
      && (forall i :: 0 <= i < |relays| ==>
           next[i] == Relay(relays[i].id, relays[i].kind, relays[i].controlSignal, relays[i].contacts,
                            relays[i].closed != (relays[i].id == id)))
    ensures Toggle(Toggle(relays, id), id) == relays
  {
  }

  /** An unbind undoes the bind of a contact that was listed and held nothing. */
  lemma UnbindUndoesBind(relays: seq<Relay>, k: nat, contact: string, terminal: string)
    requires k < |relays| && contact in relays[k].contacts && relays[k].contacts[contact] == ""
    requires forall j :: 0 <= j < |relays| && j != k ==> relays[j].id != relays[k].id
    ensures Unbind(Bind(relays, relays[k].id, contact, terminal), relays[k].id, contact) == relays
  {
    var id := relays[k].id;
    var bound := Bind(relays, id, contact, terminal);
    OneContactChanges(relays, id, contact, terminal);
    UnbindClears(bound, id, contact);
    assert FirstRelay(relays, id, k) && FirstRelay(bound, id, k);
    assert relays[k].contacts[contact := terminal][contact := ""] == relays[k].contacts;
  }

  lemma HeldMeans(relays: seq<Relay>, terminal: string, id: string, contact: string)
    requires terminal != ""
    ensures HeldByAnother(relays, terminal, Occupant(id, contact)) <==>
      exists i, c :: 0 <= i < |relays| && c in relays[i].contacts && relays[i].contacts[c] == terminal
                     && !(relays[i].id == id && c == contact)
  {
    if i, c :| 0 <= i < |relays| && c in relays[i].contacts && relays[i].contacts[c] == terminal
               && !(relays[i].id == id && c == contact)
    {
      assert Occupies(relays, i, c, terminal, Occupant(id, contact));
    }
    if i: nat, c :| Occupies(relays, i, c, terminal, Occupant(id, contact)) {
      assert c in relays[i].contacts;
    }
  }

  /** A bind is refused exactly when no terminal is given or another contact holds it. */
  method ApplyBind(relays: seq<Relay>, relayId: string, contact: string, terminal: string)
    returns (r: Option<seq<Relay>>)
    ensures r.None? <==> terminal == "" || HeldByAnother(relays, terminal, Occupant(relayId, contact))
    ensures terminal != "" ==>
      (r.None? <==> exists i, c :: 0 <= i < |relays| && c in relays[i].contacts && relays[i].contacts[c] == terminal
                                   && !(relays[i].id == relayId && c == contact))
    ensures r.Some? ==> r.value == Bind(relays, relayId, contact, terminal)
    ensures r.Some? ==> OnlyContact(relays, r.value, relayId, contact, terminal)
  {
    OneContactChanges(relays, relayId, contact, terminal);
    if terminal != "" { HeldMeans(relays, terminal, relayId, contact); }
    if terminal == "" {
      return None;
    }
    var occupant := FindOccupant(relays, terminal, Occupant(relayId, contact));
    if occupant.Some? {
      return None;
    }
    return Some(Bind(relays, relayId, contact, terminal));
  }

  // ----- exclusivity over all edits -----

  ghost predicate UniqueRelays(relays: seq<Relay>) {
    forall i, j :: 0 <= i < j < |relays| ==> relays[i].id != relays[j].id
  }

  /** No terminal is held by two contacts. */
  ghost predicate Exclusive(relays: seq<Relay>) {
    forall i, j, c, d ::
      && 0 <= i < |relays| && 0 <= j < |relays|
      && Bound(relays[i], c).Some? && Bound(relays[i], c) == Bound(relays[j], d) ==>
      i == j && c == d
  }

  /** At most one relay has the id. */
  ghost predicate AtMostOne(relays: seq<Relay>, id: string) {
    forall i, j :: 0 <= i < j < |relays| ==> relays[i].id != id || relays[j].id != id
  }

  ghost predicate BindsNothing(contacts: Contacts) {
    forall c :: c in contacts ==> contacts[c] == ""
  }

  lemma {:induction false} ContactsAt(relays: seq<Relay>, k: nat)
    requires k < |relays| && AtMostOne(relays, relays[k].id)
    ensures ContactsOf(relays, relays[k].id) == relays[k].contacts
  {
    if k > 0 {
      assert relays[0].id != relays[k].id;
      ContactsAt(relays[1..], k - 1);
    }
  }

  /** The new contacts bind only what the relay bound before, or the terminal t at contact x. */
  ghost predicate Narrows(before: Contacts, after: Contacts, x: string, t: string) {
    forall c :: c in after && after[c] != "" ==> (c in before && before[c] == after[c]) || (c == x && after[c] == t)
  }

  lemma WithContactsKeeps(relays: seq<Relay>, k: nat, contacts: Contacts, x: string, t: string)
    requires Exclusive(relays) && k < |relays| && AtMostOne(relays, relays[k].id)
    requires Narrows(relays[k].contacts, contacts, x, t)
    requires t == "" || !HeldByAnother(relays, t, Occupant(relays[k].id, x))
    ensures Exclusive(WithContacts(relays, relays[k].id, contacts))
  {
    var next := WithContacts(relays, relays[k].id, contacts);
    forall i, j, c, d |
      0 <= i < |next| && 0 <= j < |next| && Bound(next[i], c).Some? && Bound(next[i], c) == Bound(next[j], d)
      ensures i == j && c == d
    {
      CameFrom(relays, k, contacts, x, t, i, c);
      CameFrom(relays, k, contacts, x, t, j, d);
    }
  }

  /** A binding after the edit was there before, or is the new one, which nobody held. */
  lemma CameFrom(relays: seq<Relay>, k: nat, contacts: Contacts, x: string, t: string, i: nat, c: string)
    requires k < |relays| && i < |relays| && AtMostOne(relays, relays[k].id)
    requires Narrows(relays[k].contacts, contacts, x, t)
    requires t == "" || !HeldByAnother(relays, t, Occupant(relays[k].id, x))
    requires Bound(WithContacts(relays, relays[k].id, contacts)[i], c).Some?
    ensures var b := Bound(WithContacts(relays, relays[k].id, contacts)[i], c);
            || Bound(relays[i], c) == b
            || (i == k && c == x && b == Some(t) && forall j, d :: 0 <= j < |relays| ==> Bound(relays[j], d) != b)
  {
    var b := Bound(WithContacts(relays, relays[k].id, contacts)[i], c);
    if Bound(relays[i], c) != b {
      forall j, d | 0 <= j < |relays| ensures Bound(relays[j], d) != b {
        assert !Occupies(relays, j, d, t, Occupant(relays[k].id, x));
      }
    }
  }

  /** Contacts that bind nothing can be given to any number of relays. */
  lemma NothingBound(relays: seq<Relay>, id: string, contacts: Contacts)
    requires Exclusive(relays) && BindsNothing(contacts)
    ensures Exclusive(WithContacts(relays, id, contacts))
  {
    var next := WithContacts(relays, id, contacts);
    assert forall i, c :: 0 <= i < |next| && Bound(next[i], c).Some? ==> Bound(relays[i], c) == Bound(next[i], c);
  }

  /** Contacts that bind a terminal cannot be given to two relays. */
  lemma BoundTwice(relays: seq<Relay>, id: string, contacts: Contacts)
    requires !AtMostOne(relays, id) && !BindsNothing(contacts)
    ensures !Exclusive(WithContacts(relays, id, contacts))
  {
    var next := WithContacts(relays, id, contacts);
    var i, j :| 0 <= i < j < |relays| && relays[i].id == id && relays[j].id == id;
    var c :| c in contacts && contacts[c] != "";
    assert Bound(next[i], c) == Bound(next[j], c) == Some(contacts[c]);
  }

  /** Replacing contacts by old bindings and at most one free terminal keeps
      terminals exclusive exactly when one relay at most has the id or nothing
      is bound. */
  lemma WithContactsExactly(relays: seq<Relay>, id: string, contacts: Contacts, x: string, t: string)
    requires Exclusive(relays) && Narrows(ContactsOf(relays, id), contacts, x, t)
    requires t == "" || !HeldByAnother(relays, t, Occupant(id, x))
    ensures Exclusive(WithContacts(relays, id, contacts)) <==> AtMostOne(relays, id) || BindsNothing(contacts)
  {
    if BindsNothing(contacts) {
      NothingBound(relays, id, contacts);
    } else if !AtMostOne(relays, id) {
      BoundTwice(relays, id, contacts);
    } else if k :| 0 <= k < |relays| && relays[k].id == id {
      ContactsAt(relays, k);
      WithContactsKeeps(relays, k, contacts, x, t);
    } else {
      UnknownRelay(relays, id, contacts);
    }
  }

  lemma UnknownRelay(relays: seq<Relay>, id: string, contacts: Contacts)
    requires forall k :: 0 <= k < |relays| ==> relays[k].id != id
    ensures WithContacts(relays, id, contacts) == relays
  {
  }

  /** An accepted bind keeps terminals exclusive exactly when one relay at most
      has the id. */
  lemma BindExactly(relays: seq<Relay>, id: string, c: string, t: string)
    requires Exclusive(relays) && t != "" && !HeldByAnother(relays, t, Occupant(id, c))
    ensures Exclusive(Bind(relays, id, c, t)) <==> AtMostOne(relays, id)
  {
    var contacts := ContactsOf(relays, id)[c := t];
    assert c in contacts && contacts[c] != "";
    WithContactsExactly(relays, id, contacts, c, t);
  }

  // ----- matrix contact names -----

  function Digit(d: nat): char
    requires d < 10
  {
    "0123456789"[d]
  }

  predicate IsDigit(c: char) {
    '0' <= c <= '9'
  }

  function DigitValue(c: char): nat
    requires IsDigit(c)
  {
    c as int - '0' as int
  }

  function Decimal(n: nat): string {
    if n < 10 then [Digit(n)] else Decimal(n / 10) + [Digit(n % 10)]
  }

  predicate AllDigits(s: string) {
    forall i :: 0 <= i < |s| ==> IsDigit(s[i])
  }

  function Number(s: string): nat
    requires AllDigits(s)
  {
    if s == "" then 0 else Number(s[..|s| - 1]) * 10 + DigitValue(s[|s| - 1])
  }

  lemma DigitRoundTrip(d: nat)
    requires d < 10
    ensures IsDigit(Digit(d)) && DigitValue(Digit(d)) == d
  {
  }

  /** Reading back a printed number. */
  lemma {:induction false} DecimalRoundTrip(n: nat)
    ensures Decimal(n) != "" && AllDigits(Decimal(n)) && Number(Decimal(n)) == n
  {
    DigitRoundTrip(n % 10);
    if n < 10 {
      assert Number("") == 0;
      assert Decimal(n)[..0] == "";
    } else {
      DecimalRoundTrip(n / 10);
      var s := Decimal(n);
      assert s[..|s| - 1] == Decimal(n / 10);
    }
  }

  function CellName(row: nat, col: nat): string {
    "r" + Decimal(row) + "c" + Decimal(col)
  }

  function DigitRun(s: string): (n: nat)
    ensures n <= |s| && AllDigits(s[..n]) && (n < |s| ==> !IsDigit(s[n]))
  {
    if s == "" || !IsDigit(s[0]) then 0 else 1 + DigitRun(s[1..])
  }

  /** Matches r(digits)c(digits) over the whole key. */
  function ParseCell(key: string): Option<(nat, nat)> {
    if key == "" || key[0] != 'r' then None else
    var rest := key[1..];
    var n := DigitRun(rest);
    if n == 0 || n == |rest| || rest[n] != 'c' then None else
    var tail := rest[n + 1..];
    if tail == "" || !AllDigits(tail) then None else
    Some((Number(rest[..n]), Number(tail)))
  }

  lemma {:induction false} DigitRunStops(a: string, b: string)
    requires AllDigits(a) && b != "" && !IsDigit(b[0])
    ensures DigitRun(a + b) == |a|
  {
    if a == "" {
      assert a + b == b;
    } else {
      assert (a + b)[1..] == a[1..] + b;
      DigitRunStops(a[1..], b);
    }
  }

  /** How cells are named. */
  lemma CellsAreNamed()
    ensures CellName(1, 2) == "r1c2" && CellName(10, 23) == "r10c23"
  {
    assert Decimal(1) == "1" && Decimal(2) == "2" && Decimal(3) == "3";
    assert Decimal(10) == Decimal(1) + "0" == "10";
    assert Decimal(23) == Decimal(2) + "3" == "23";
  }

  /** Cell names can be read back, so they are all different. */
  lemma CellRoundTrip(row: nat, col: nat)
    ensures ParseCell(CellName(row, col)) == Some((row, col))
  {
    var a, b, key := Decimal(row), Decimal(col), CellName(row, col);
    DecimalRoundTrip(row);
    DecimalRoundTrip(col);
    var rest := key[1..];
    assert rest == a + ("c" + b);
    DigitRunStops(a, "c" + b);
    assert rest[..|a|] == a && rest[|a| + 1..] == b;
  }

  ghost function CellNames(rows: int, cols: int): set<string> {
    set r: nat, c: nat | 1 <= r <= rows && 1 <= c <= cols :: CellName(r, c)
  }

  lemma CellNameIn(r: nat, c: nat, rows: int, cols: int)
    ensures CellName(r, c) in CellNames(rows, cols) <==> 1 <= r <= rows && 1 <= c <= cols
  {
    if CellName(r, c) in CellNames(rows, cols) {
      var a: nat, b: nat :| 1 <= a <= rows && 1 <= b <= cols && CellName(a, b) == CellName(r, c);
      CellRoundTrip(a, b);
      CellRoundTrip(r, c);
    }
  }

  function Kept(contacts: Contacts, name: string): string {
    if name in contacts then contacts[name] else ""
  }

  /** The grid of the new size: bindings inside it are kept, new cells are unbound. */
  ghost function Resized(contacts: Contacts, rows: int, cols: int): Contacts {
    map n | n in CellNames(rows, cols) :: Kept(contacts, n)
  }

  method ResizeRow(contacts: Contacts, row: nat, cols: int) returns (part: Contacts)
    ensures part.Keys == set c: nat | 1 <= c <= cols :: CellName(row, c)
    ensures forall n :: n in part ==> part[n] == Kept(contacts, n)
  {
    part := map[];
    var c := 1;
    while c <= cols
      invariant 1 <= c
      invariant part.Keys == set d: nat | 1 <= d < c && d <= cols :: CellName(row, d)
      invariant forall n :: n in part ==> part[n] == Kept(contacts, n)
      decreases cols - c
    {
      var name := CellName(row, c);
      part := part[name := Kept(contacts, name)];
      c := c + 1;
    }
  }

  lemma AddPart(contacts: Contacts, row: nat, cols: int, part: Contacts)
    requires row >= 1 && part.Keys == set c: nat | 1 <= c <= cols :: CellName(row, c)
    requires forall n :: n in part ==> part[n] == Kept(contacts, n)
    ensures Resized(contacts, row - 1, cols) + part == Resized(contacts, row, cols)
  {
    RowAdded(row, cols);
    var all := Resized(contacts, row - 1, cols) + part;
    assert all.Keys == CellNames(row, cols);
  }

  lemma RowAdded(row: nat, cols: int)
    requires row >= 1
    ensures CellNames(row, cols) == CellNames(row - 1, cols) + set c: nat | 1 <= c <= cols :: CellName(row, c)
  {
  }

  method ResizeMatrixContacts(contacts: Contacts, rows: int, cols: int) returns (next: Contacts)
    ensures next == Resized(contacts, rows, cols)
    ensures next.Keys == CellNames(rows, cols)
    ensures forall n :: n in next ==> next[n] == if n in contacts then contacts[n] else ""
  {
    next := map[];
    var r := 1;
    while r <= rows
      invariant 1 <= r && (r <= rows + 1 || r == 1)
      invariant next == Resized(contacts, r - 1, cols)
      decreases rows - r
    {
      var part := ResizeRow(contacts, r, cols);
      AddPart(contacts, r, cols, part);
      next := next + part;
      r := r + 1;
    }
    assert CellNames(r - 1, cols) == CellNames(rows, cols);
  }

  /** The largest row and column among keys that are cell names; 0 when there is none. */
  ghost predicate Extent(contacts: Contacts, rows: nat, cols: nat) {
    && (forall k :: k in contacts && ParseCell(k).Some? ==>
         ParseCell(k).value.0 <= rows && ParseCell(k).value.1 <= cols)
    && (rows > 0 ==> exists k :: k in contacts && ParseCell(k).Some? && ParseCell(k).value.0 == rows)
    && (cols > 0 ==> exists k :: k in contacts && ParseCell(k).Some? && ParseCell(k).value.1 == cols)
  }

  /** The size read off the keys: their extent, or 2 by 2. */
  ghost predicate IsMatrixSize(contacts: Contacts, rows: nat, cols: nat) {
    exists a: nat, b: nat :: Extent(contacts, a, b) && (rows, cols) == if a == 0 || b == 0 then (2, 2) else (a, b)
  }

  method MatrixSize(contacts: Contacts) returns (rows: nat, cols: nat)
    ensures IsMatrixSize(contacts, rows, cols)
  {
    rows, cols := 0, 0;
    var keys := contacts.Keys;
    ghost var seen: Contacts := map[];
    while keys != {}
      invariant keys <= contacts.Keys
      invariant seen == map k | k in contacts && k !in keys :: contacts[k]
      invariant Extent(seen, rows, cols)
      decreases keys
    {
      var k :| k in keys;
      keys := keys - {k};
      ghost var before := seen;
      seen := seen[k := contacts[k]];
      var cell := ParseCell(k);
      ExtentGrows(before, rows, cols, k, contacts[k]);
      if cell.Some? {
        rows := if cell.value.0 > rows then cell.value.0 else rows;
        cols := if cell.value.1 > cols then cell.value.1 else cols;
      }
    }
    assert seen == contacts;
    if rows == 0 || cols == 0 {
      rows, cols := 2, 2;
    }
  }

  lemma ExtentGrows(m: Contacts, rows: nat, cols: nat, k: string, v: string)
    requires Extent(m, rows, cols)
    ensures ParseCell(k).None? ==> Extent(m[k := v], rows, cols)
    ensures ParseCell(k).Some? ==>
      var (r, c) := ParseCell(k).value; Extent(m[k := v], if r > rows then r else rows, if c > cols then c else cols)
  {
    var next := m[k := v];
    assert k in next;
    if rows > 0 {
      var a :| a in m && ParseCell(a).Some? && ParseCell(a).value.0 == rows;
      assert a in next;
    }
    if cols > 0 {
      var b :| b in m && ParseCell(b).Some? && ParseCell(b).value.1 == cols;
      assert b in next;
    }
  }

  /** Measuring a resized grid gives its size back exactly when both sizes are at least 1. */
  lemma SizeRoundTrip(contacts: Contacts, rows: nat, cols: nat, a: nat, b: nat)
    requires IsMatrixSize(Resized(contacts, rows, cols), a, b)
    ensures rows >= 1 && cols >= 1 ==> a == rows && b == cols
    ensures rows == 0 || cols == 0 ==> a == 2 && b == 2
  {
    var m := Resized(contacts, rows, cols);
    var x: nat, y: nat :| Extent(m, x, y) && (a, b) == if x == 0 || y == 0 then (2, 2) else (x, y);
    forall k | k in m
      ensures ParseCell(k).Some? && 1 <= ParseCell(k).value.0 <= rows && 1 <= ParseCell(k).value.1 <= cols {
      var r: nat, c: nat :| 1 <= r <= rows && 1 <= c <= cols && CellName(r, c) == k;
      CellRoundTrip(r, c);
    }
    if rows >= 1 && cols >= 1 {
      CellNameIn(rows, cols, rows, cols);
      CellRoundTrip(rows, cols);
      assert CellName(rows, cols) in m;
    }
  }

  function FixedLayout(kind: string): seq<string> {
    if kind == "spdt" then ["common", "no", "nc"]
    else if kind == "dpdt" then ["1c", "1no", "1nc", "2c", "2no", "2nc"]
    else ["common", "no"]
  }

  function RowCells(row: nat, cols: nat): seq<string> {
    seq(cols, i requires 0 <= i < cols => CellName(row, i + 1))
  }

  /** The cells row by row. */
  function Grid(rows: nat, cols: nat): seq<string> {
    if rows == 0 then [] else Grid(rows - 1, cols) + RowCells(rows, cols)
  }

  method RowNames(row: nat, cols: nat) returns (names: seq<string>)
    ensures names == RowCells(row, cols)
  {
    names := [];
    for c := 0 to cols
      invariant |names| == c && forall i :: 0 <= i < c ==> names[i] == CellName(row, i + 1)
    {
      names := names + [CellName(row, c + 1)];
    }
  }

  /** Every cell of the grid, each listed once. */
  ghost predicate ListsGrid(names: seq<string>, rows: int, cols: int) {
    Distinct(names) && (forall n :: n in names <==> n in CellNames(rows, cols))
  }

  lemma {:induction false} GridListed(rows: nat, cols: nat)
    ensures ListsGrid(Grid(rows, cols), rows, cols)
  {
    if rows == 0 {
      assert CellNames(0, cols) == {};
    } else {
      GridListed(rows - 1, cols);
      AddRow(Grid(rows - 1, cols), rows, cols);
    }
  }

  lemma AddRow(names: seq<string>, row: nat, cols: nat)
    requires row >= 1 && ListsGrid(names, row - 1, cols)
    ensures ListsGrid(names + RowCells(row, cols), row, cols)
  {
    var part := RowCells(row, cols);
    forall i | 0 <= i < |part| ensures part[i] !in names {
      CellNameIn(row, i + 1, row - 1, cols);
    }
    RowDistinct(row, cols);
    DistinctBoth(names, part);
    forall n ensures n in names + part <==> n in CellNames(row, cols) { NextRow(row, cols, n); }
  }

  lemma RowDistinct(row: nat, cols: nat)
    ensures Distinct(RowCells(row, cols))
  {
    var part := RowCells(row, cols);
    forall i, j | 0 <= i < j < |part| ensures part[i] != part[j] {
      CellRoundTrip(row, i + 1);
      CellRoundTrip(row, j + 1);
    }
  }

  lemma DistinctBoth(names: seq<string>, part: seq<string>)
    requires Distinct(names) && Distinct(part) && forall i :: 0 <= i < |part| ==> part[i] !in names
    ensures Distinct(names + part)
  {
  }

  lemma NextRow(row: nat, cols: nat, n: string)
    requires row >= 1
    ensures n in CellNames(row, cols) <==> n in CellNames(row - 1, cols) || n in RowCells(row, cols)
  {
    var part := RowCells(row, cols);
    if n in CellNames(row, cols) {
      var r: nat, c: nat :| 1 <= r <= row && 1 <= c <= cols && CellName(r, c) == n;
      if r == row { assert part[c - 1] == n; }
    }
    if n in part {
      var i :| 0 <= i < cols && part[i] == n;
      CellNameIn(row, i + 1, row, cols);
    }
  }

  method ContactNamesForType(kind: string, contacts: Contacts) returns (names: seq<string>)
    ensures kind == "matrix" ==> exists rows: nat, cols: nat ::
      IsMatrixSize(contacts, rows, cols) && names == Grid(rows, cols)
    ensures kind == "spdt" ==> names == ["common", "no", "nc"]
    ensures kind == "dpdt" ==> names == ["1c", "1no", "1nc", "2c", "2no", "2nc"]
    ensures kind !in ["matrix", "spdt", "dpdt"] ==> names == ["common", "no"]
  {
    if kind != "matrix" {
      return FixedLayout(kind);
    }
    var rows, cols := MatrixSize(contacts);
    names := GridNames(rows, cols);
  }

  method GridNames(rows: nat, cols: nat) returns (names: seq<string>)
    ensures names == Grid(rows, cols)
  {
    names := [];
    for r := 0 to rows
      invariant names == Grid(r, cols)
    {
      var part := RowNames(r + 1, cols);
      names := names + part;
    }
  }

  /** The names listed for a resized matrix are exactly its keys, and it keeps the bindings inside it. */
  lemma NamesAreKeys(contacts: Contacts, rows: nat, cols: nat, a: nat, b: nat, names: seq<string>)
    requires rows >= 1 && cols >= 1
    requires IsMatrixSize(Resized(contacts, rows, cols), a, b) && names == Grid(a, b)
    ensures Distinct(names) && forall n :: n in names <==> n in Resized(contacts, rows, cols)
    ensures forall r: nat, c: nat :: 1 <= r <= rows && 1 <= c <= cols ==>
      && CellName(r, c) in Resized(contacts, rows, cols)
      && Resized(contacts, rows, cols)[CellName(r, c)]
         == if CellName(r, c) in contacts then contacts[CellName(r, c)] else ""
  {
    SizeRoundTrip(contacts, rows, cols, a, b);
    GridListed(rows, cols);
  }

  // ----- every sequence of edits -----

  datatype Edit =
    | BindContact(relayId: string, contact: string, terminal: string)
    | UnbindContact(relayId: string, contact: string)
    | ToggleState(relayId: string)
    | ResizeMatrix(relayId: string, rows: int, cols: int)

  ghost function Edited(relays: seq<Relay>, e: Edit): seq<Relay> {
    match e
    case BindContact(id, c, t) =>
      if t == "" || HeldByAnother(relays, t, Occupant(id, c)) then relays else Bind(relays, id, c, t)
    case UnbindContact(id, c) => Unbind(relays, id, c)
    case ToggleState(id) => Toggle(relays, id)
    case ResizeMatrix(id, rows, cols) => WithContacts(relays, id, Resized(ContactsOf(relays, id), rows, cols))
  }

  ghost function EditedAll(relays: seq<Relay>, edits: seq<Edit>): seq<Relay>
    decreases |edits|
  {
    if edits == [] then relays else EditedAll(Edited(relays, edits[0]), edits[1..])
  }

  /** What an edit must meet to keep terminals exclusive, read off the relays
      before it. */
  ghost predicate Harmless(relays: seq<Relay>, e: Edit) {
    match e
    case BindContact(id, c, t) => t == "" || HeldByAnother(relays, t, Occupant(id, c)) || AtMostOne(relays, id)
    case UnbindContact(id, c) => AtMostOne(relays, id) || BindsNothing(ContactsOf(relays, id)[c := ""])
    case ToggleState(_) => true
    case ResizeMatrix(id, rows, cols) =>
      AtMostOne(relays, id) || BindsNothing(Resized(ContactsOf(relays, id), rows, cols))
  }

  /** Every edit of any relays, ids repeated or not. */
  lemma EditExactly(relays: seq<Relay>, e: Edit)
    requires Exclusive(relays)
    ensures Exclusive(Edited(relays, e)) <==> Harmless(relays, e)
  {
    match e {
      case BindContact(id, c, t) =>
        if t != "" && !HeldByAnother(relays, t, Occupant(id, c)) { BindExactly(relays, id, c, t); }
      case UnbindContact(id, c) => WithContactsExactly(relays, id, ContactsOf(relays, id)[c := ""], "", "");
      case ToggleState(id) =>
        assert forall i, c :: 0 <= i < |relays| ==> Bound(Toggle(relays, id)[i], c) == Bound(relays[i], c);
      case ResizeMatrix(id, rows, cols) =>
        WithContactsExactly(relays, id, Resized(ContactsOf(relays, id), rows, cols), "", "");
    }
  }

  ghost predicate AllHarmless(relays: seq<Relay>, edits: seq<Edit>)
    decreases |edits|
  {
    edits != [] ==> Harmless(relays, edits[0]) && AllHarmless(Edited(relays, edits[0]), edits[1..])
  }

  /** Terminals are exclusive before the edits and after each of them. */
  ghost predicate StaysExclusive(relays: seq<Relay>, edits: seq<Edit>)
    decreases |edits|
  {
    Exclusive(relays) && (edits != [] ==> StaysExclusive(Edited(relays, edits[0]), edits[1..]))
  }

  /** Over a whole sequence: terminals stay exclusive exactly when every edit is
      harmless where it is made. */
  lemma {:induction false} StaysExclusiveExactly(relays: seq<Relay>, edits: seq<Edit>)
    requires Exclusive(relays)
    ensures StaysExclusive(relays, edits) <==> AllHarmless(relays, edits)
    decreases |edits|
  {
    if edits != [] {
      EditExactly(relays, edits[0]);
      if Harmless(relays, edits[0]) { StaysExclusiveExactly(Edited(relays, edits[0]), edits[1..]); }
    }
  }

  lemma EditKeeps(relays: seq<Relay>, e: Edit)
    requires UniqueRelays(relays) && Exclusive(relays)
    ensures UniqueRelays(Edited(relays, e)) && Exclusive(Edited(relays, e))
  {
    assert AtMostOne(relays, e.relayId);
    EditExactly(relays, e);
  }

  /** Whatever is bound, unbound, toggled or resized, no terminal is ever held by two contacts. */
  lemma {:induction false} AlwaysExclusive(relays: seq<Relay>, edits: seq<Edit>)
    requires UniqueRelays(relays) && Exclusive(relays)
    ensures UniqueRelays(EditedAll(relays, edits)) && Exclusive(EditedAll(relays, edits))
    decreases |edits|
  {
    if edits != [] {
      EditKeeps(relays, edits[0]);
      AlwaysExclusive(Edited(relays, edits[0]), edits[1..]);
    }
  }

  /** Relays without bindings are a starting point. */
  lemma UnboundIsExclusive(relays: seq<Relay>)
    requires forall i, c :: 0 <= i < |relays| && c in relays[i].contacts ==> relays[i].contacts[c] == ""
    ensures Exclusive(relays)
  {
  }

  /** With two relays of one id a single bind takes the terminal twice. */
  lemma RepeatedIdBindsTwice()
    ensures var r := Relay("K", "spst", "S", map["no" := ""], false);
            Exclusive([r, r]) && !Exclusive(Edited([r, r], BindContact("K", "no", "T1")))
  {
    var r := Relay("K", "spst", "S", map["no" := ""], false);
    assert !AtMostOne([r, r], "K") by { assert [r, r][0].id == [r, r][1].id == "K"; }
    EditExactly([r, r], BindContact("K", "no", "T1"));
  }
}
