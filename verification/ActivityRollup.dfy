/** Four-hour windows: hourly rows per user are fetched and combined; the result is that of grouping directly. */
module ActivityRollup {
  import opened ActivityCredit
  import opened Sums

  const DAY := 24 * HOUR
  const WINDOW := 4 * HOUR

  // One row of the database's grouping by hour and user.
  datatype HourRow = HourRow(hour: int, user: User, seconds: int)

  datatype Entry = Entry(users: set<User>, seconds: int)

  datatype Line = Line(start: int, distinctUsers: nat, seconds: int)

  // Back to the last full hour of the day that four divides.
  function FloorToFourHours(moment: int): int {
    moment / DAY * DAY + (moment % DAY / HOUR) / 4 * 4 * HOUR
  }

  /** Windows of the day are windows of four hours counted from the epoch, and a moment lies in its window. */
  lemma WindowsTileTime(moment: int)
    ensures FloorToFourHours(moment) == moment / WINDOW * WINDOW
    ensures FloorToFourHours(moment) <= moment < FloorToFourHours(moment) + WINDOW
  {
    var hours := moment / HOUR;
    assert moment / DAY == hours / 24 && moment % DAY / HOUR == hours % 24;
    FourDividesTheDay(hours);
    assert moment / WINDOW == hours / 4;
  }

  lemma FourDividesTheDay(hours: int)
    ensures hours / 24 * 24 + hours % 24 / 4 * 4 == hours / 4 * 4
  {
  }

  function Start(hour: int): int { FloorToFourHours(hour * HOUR) }

  // ----- The two ways of grouping -----

  ghost function Of(hour: int, user: User): Bucket -> int {
    (r: Bucket) => if r.hour == hour && r.user == user then r.seconds else 0
  }

  ghost function InWindow(start: int): Bucket -> int { (r: Bucket) => if Start(r.hour) == start then r.seconds else 0 }

  ghost function RowInWindow(start: int): HourRow -> int {
    (g: HourRow) => if Start(g.hour) == start then g.seconds else 0
  }

  // Part of the rows, summed by hour and user, then by window.
  ghost function ThenInWindow(rows: seq<Bucket>, start: int): HourRow -> int {
    (g: HourRow) => if Start(g.hour) == start then Sum(rows, Of(g.hour, g.user)) else 0
  }

  ghost predicate HasKey(groups: seq<HourRow>, hour: int, user: User) {
    exists i :: 0 <= i < |groups| && groups[i].hour == hour && groups[i].user == user
  }

  ghost predicate HasRow(rows: seq<Bucket>, hour: int, user: User) {
    exists i :: 0 <= i < |rows| && rows[i].hour == hour && rows[i].user == user
  }

  ghost predicate DistinctKeys(groups: seq<HourRow>) {
    forall i, j :: 0 <= i < j < |groups| ==> groups[i].hour != groups[j].hour || groups[i].user != groups[j].user
  }

  /** What the database delivers, in any order: one row for each hour and user there is, with the sum of the seconds. */
  ghost predicate IsGrouping(groups: seq<HourRow>, rows: seq<Bucket>) {
    && DistinctKeys(groups)
    && (forall hour, user :: HasKey(groups, hour, user) <==> HasRow(rows, hour, user))
    && (forall i :: 0 <= i < |groups| ==> groups[i].seconds == Sum(rows, Of(groups[i].hour, groups[i].user)))
  }

  ghost function UsersIn(rows: seq<Bucket>, start: int): set<User> {
    set i | 0 <= i < |rows| && Start(rows[i].hour) == start :: rows[i].user
  }

  // ----- The seconds agree -----

  lemma {:induction false} SumDiffersAt<T>(s: seq<T>, k: nat, f: T -> int, g: T -> int)
    requires k < |s| && forall i :: 0 <= i < |s| && i != k ==> f(s[i]) == g(s[i])
    ensures Sum(s, f) == Sum(s, g) + f(s[k]) - g(s[k])
  {
    var n := |s| - 1;
    if k == n {
      SumSame(s[..n], f, g);
    } else {
      SumDiffersAt(s[..n], k, f, g);
    }
  }

  // Every row is counted in exactly one group, and that group in exactly one window.
  lemma {:induction false} TwoStagesAgree(groups: seq<HourRow>, rows: seq<Bucket>, start: int)
    requires DistinctKeys(groups) && forall i :: 0 <= i < |rows| ==> HasKey(groups, rows[i].hour, rows[i].user)
    ensures Sum(groups, ThenInWindow(rows, start)) == Sum(rows, InWindow(start))
  {
    if rows == [] {
      forall g ensures ThenInWindow(rows, start)(g) == 0 {}
      SumZero(groups, ThenInWindow(rows, start));
    } else {
      var n := |rows| - 1;
      var front, r := rows[..n], rows[n];
      forall i | 0 <= i < n ensures HasKey(groups, front[i].hour, front[i].user) {
        assert HasKey(groups, rows[i].hour, rows[i].user);
      }
      TwoStagesAgree(groups, front, start);
      var k :| 0 <= k < |groups| && groups[k].hour == r.hour && groups[k].user == r.user;
      var f, g := ThenInWindow(rows, start), ThenInWindow(front, start);
      forall i | 0 <= i < |groups| && i != k ensures f(groups[i]) == g(groups[i]) {
        assert groups[i].hour != r.hour || groups[i].user != r.user;
        assert Of(groups[i].hour, groups[i].user)(r) == 0;
      }
      SumDiffersAt(groups, k, f, g);
    }
  }

  lemma GroupedSecondsAreRight(groups: seq<HourRow>, rows: seq<Bucket>, start: int)
    requires IsGrouping(groups, rows)
    ensures Sum(groups, RowInWindow(start)) == Sum(rows, InWindow(start))
  {
    forall i | 0 <= i < |rows| ensures HasKey(groups, rows[i].hour, rows[i].user) {
      assert HasRow(rows, rows[i].hour, rows[i].user);
    }
    TwoStagesAgree(groups, rows, start);
    SumSame(groups, RowInWindow(start), ThenInWindow(rows, start));
  }

  // ----- The combining loop -----

  ghost function GroupUsers(groups: seq<HourRow>, start: int): set<User> {
    set i | 0 <= i < |groups| && Start(groups[i].hour) == start :: groups[i].user
  }

  lemma GroupUsersAreRight(groups: seq<HourRow>, rows: seq<Bucket>, start: int)
    requires IsGrouping(groups, rows)
    ensures GroupUsers(groups, start) == UsersIn(rows, start)
  {
    forall u | u in GroupUsers(groups, start) ensures u in UsersIn(rows, start) {
      var i :| 0 <= i < |groups| && Start(groups[i].hour) == start && groups[i].user == u;
      assert HasKey(groups, groups[i].hour, u);
      var j :| 0 <= j < |rows| && rows[j].hour == groups[i].hour && rows[j].user == u;
    }
    forall u | u in UsersIn(rows, start) ensures u in GroupUsers(groups, start) {
      var j :| 0 <= j < |rows| && Start(rows[j].hour) == start && rows[j].user == u;
      assert HasRow(rows, rows[j].hour, u);
      var i :| 0 <= i < |groups| && groups[i].hour == rows[j].hour && groups[i].user == u;
    }
  }

  ghost predicate Combined(grouped: map<int, Entry>, groups: seq<HourRow>, start: int) {
    && (start in grouped <==> GroupUsers(groups, start) != {})
    && (start in grouped ==> grouped[start] == Entry(GroupUsers(groups, start), Sum(groups, RowInWindow(start))))
  }

  lemma NothingInWindow(groups: seq<HourRow>, start: int)
    requires GroupUsers(groups, start) == {}
    ensures Sum(groups, RowInWindow(start)) == 0
  {
    forall i | 0 <= i < |groups| ensures RowInWindow(start)(groups[i]) == 0 {
      assert groups[i].user !in GroupUsers(groups, start);
    }
    SumTailZero(groups, 0, RowInWindow(start));
  }

  function AddRow(grouped: map<int, Entry>, row: HourRow): map<int, Entry> {
    var start := Start(row.hour);
    var entry := if start in grouped then grouped[start] else Entry({}, 0);
    grouped[start := Entry(entry.users + {row.user}, entry.seconds + row.seconds)]
  }

  lemma OneRowMore(grouped: map<int, Entry>, groups: seq<HourRow>, row: HourRow, start: int)
    requires Combined(grouped, groups, start)
    ensures Combined(AddRow(grouped, row), groups + [row], start)
  {
    SumAppend(groups, row, RowInWindow(start));
    var more := if Start(row.hour) == start then {row.user} else {};
    assert GroupUsers(groups + [row], start) == GroupUsers(groups, start) + more by {
      var all := groups + [row];
      assert all[|groups|] == row && forall i :: 0 <= i < |groups| ==> all[i] == groups[i];
      forall u | u in GroupUsers(groups, start) + more ensures u in GroupUsers(all, start) {
        if u in GroupUsers(groups, start) {
          var i :| 0 <= i < |groups| && Start(groups[i].hour) == start && groups[i].user == u;
          assert all[i].user == u;
        } else {
          assert all[|groups|].user == u;
        }
      }
    }
    if GroupUsers(groups, start) == {} { NothingInWindow(groups, start); }
  }

  // `keys` are the keys of the result in the order in which they came up.
  method Combine(groups: seq<HourRow>) returns (grouped: map<int, Entry>, keys: seq<int>)
    ensures forall start :: Combined(grouped, groups, start)
    ensures Distinct(keys) && forall start :: start in keys <==> start in grouped
  {
    grouped, keys := map[], [];
    for i := 0 to |groups|
      invariant forall start :: Combined(grouped, groups[..i], start)
      invariant Distinct(keys) && forall start :: start in keys <==> start in grouped
    {
      var row := groups[i];
      ghost var before, upTo, after := groups[..i], groups[..i + 1], AddRow(grouped, row);
      assert upTo == before + [row];
      forall start ensures Combined(after, upTo, start) {
        assert Combined(grouped, before, start);
        OneRowMore(grouped, before, row, start);
      }
      var start := Start(row.hour);
      if start !in grouped { grouped, keys := grouped[start := Entry({}, 0)], keys + [start]; }
      var entry := grouped[start];
      grouped := grouped[start := Entry(entry.users + {row.user}, entry.seconds + row.seconds)];
      assert grouped == after;
    }
    assert groups[..|groups|] == groups;
  }

  // ----- Sorting -----

  ghost predicate Distinct(keys: seq<int>) { forall i, j :: 0 <= i < j < |keys| ==> keys[i] != keys[j] }

  ghost predicate Ascending(keys: seq<int>) { forall i, j :: 0 <= i < j < |keys| ==> keys[i] < keys[j] }

  function Insert(sorted: seq<int>, key: int): seq<int> {
    if sorted == [] then [key]
    else if key < sorted[0] then [key] + sorted
    else [sorted[0]] + Insert(sorted[1..], key)
  }

  lemma {:induction false} InsertKeepsOrder(sorted: seq<int>, key: int)
    ensures forall k :: k in Insert(sorted, key) <==> k in sorted || k == key
    ensures Ascending(sorted) && key !in sorted ==> Ascending(Insert(sorted, key))
  {
    if sorted != [] && key >= sorted[0] {
      var first, rest := sorted[0], sorted[1..];
      assert sorted == [first] + rest;
      InsertKeepsOrder(rest, key);
      var r := Insert(rest, key);
      if Ascending(sorted) && key !in sorted {
        forall k | k in r ensures first < k {
          if k != key { var j :| 0 <= j < |rest| && rest[j] == k; assert sorted[j + 1] == k; }
        }
        AscendingCons(first, r);
      }
    } else if sorted != [] && Ascending(sorted) {
      forall k | k in sorted ensures key < k {}
      AscendingCons(key, sorted);
    }
  }

  lemma AscendingCons(first: int, rest: seq<int>)
    requires Ascending(rest) && forall k :: k in rest ==> first < k
    ensures Ascending([first] + rest)
  {
    var s := [first] + rest;
    forall i, j | 0 <= i < j < |s| ensures s[i] < s[j] {
      assert s[j] == rest[j - 1] && rest[j - 1] in rest;
      if i > 0 { assert s[i] == rest[i - 1]; }
    }
  }

  function Sorted(keys: seq<int>): seq<int> {
    if keys == [] then [] else Insert(Sorted(keys[..|keys| - 1]), keys[|keys| - 1])
  }

  lemma {:induction false} SortedIsSorted(keys: seq<int>)
    ensures forall k :: k in Sorted(keys) <==> k in keys
    ensures Distinct(keys) ==> Ascending(Sorted(keys))
  {
    if keys != [] {
      var front, last := keys[..|keys| - 1], keys[|keys| - 1];
      assert keys == front + [last];
      SortedIsSorted(front);
      InsertKeepsOrder(Sorted(front), last);
      if Distinct(keys) {
        assert forall i :: 0 <= i < |front| ==> front[i] == keys[i];
        assert last !in front;
      }
    }
  }

  /** The windows in order, each with its distinct users and total seconds, exactly as if the stored rows had been
      grouped by window at once. */
  method AggregateFourHours(perHourUser: seq<HourRow>, ghost rows: seq<Bucket>) returns (lines: seq<Line>)
    requires IsGrouping(perHourUser, rows)
    ensures forall i, j :: 0 <= i < j < |lines| ==> lines[i].start < lines[j].start
    ensures forall start :: UsersIn(rows, start) != {} <==> exists i :: 0 <= i < |lines| && lines[i].start == start
    ensures forall i :: 0 <= i < |lines| ==>
              lines[i] == Line(lines[i].start, |UsersIn(rows, lines[i].start)|, Sum(rows, InWindow(lines[i].start)))
  {
    var grouped, keys := Combine(perHourUser);
    var starts := Sorted(keys);
    SortedIsSorted(keys);
    forall i | 0 <= i < |starts| ensures starts[i] in grouped {
      assert starts[i] in starts;
      assert starts[i] in keys;
    }
    lines := seq(|starts|,
                 i requires 0 <= i < |starts| =>
                   Line(starts[i], |grouped[starts[i]].users|, grouped[starts[i]].seconds));
    forall i | 0 <= i < |lines|
      ensures lines[i] == Line(lines[i].start, |UsersIn(rows, lines[i].start)|, Sum(rows, InWindow(lines[i].start)))
    {
      GroupedIsDirect(grouped, perHourUser, rows, starts[i]);
    }
    forall start ensures UsersIn(rows, start) != {} <==> exists i :: 0 <= i < |lines| && lines[i].start == start {
      GroupedIsDirect(grouped, perHourUser, rows, start);
      if start in starts {
        var i :| 0 <= i < |starts| && starts[i] == start;
        assert lines[i].start == start;
      }
    }
  }

  lemma GroupedIsDirect(grouped: map<int, Entry>, groups: seq<HourRow>, rows: seq<Bucket>, start: int)
    requires IsGrouping(groups, rows) && Combined(grouped, groups, start)
    ensures start in grouped <==> UsersIn(rows, start) != {}
    ensures start in grouped ==> grouped[start] == Entry(UsersIn(rows, start), Sum(rows, InWindow(start)))
  {
    GroupUsersAreRight(groups, rows, start);
    GroupedSecondsAreRight(groups, rows, start);
  }
}
