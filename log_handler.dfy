/**
 * The per-request logging fields of pkg/log/log_handler.go: the LogData record
 * a context carries, the With* helpers that set one field of it, and the
 * attribute selection that MyJSONLogHandler.Handle performs on a log record.
 */
module Log {
  import opened Wrappers

  /** The structured fields a request carries for the logger. */
  datatype LogData = LogData(userID: string, service: string, productID: string, productName: string)

  /** The zero value `LogData{}`. */
  const EmptyLogData: LogData := LogData("", "", "", "")

  /**
   * What `ctx.Value(LogDataKey).(LogData)` finds in a context: a LogData, or
   * nothing. The other values a Go context carries are not modelled.
   */
  type Context = Option<LogData>

  /** The LogData of a context, or the empty one when it holds none. */
  function Current(ctx: Context): LogData {
    ctx.GetOr(EmptyLogData)
  }

  function WithUserID(ctx: Context, userID: string): (r: Context)
    ensures r == Some(Current(ctx).(userID := userID))
  {
    match ctx
    case Some(ld) => Some(ld.(userID := userID))
    case None => Some(LogData(userID, "", "", ""))
  }

  function WithService(ctx: Context, service: string): (r: Context)
    ensures r == Some(Current(ctx).(service := service))
  {
    match ctx
    case Some(ld) => Some(ld.(service := service))
    case None => Some(LogData("", service, "", ""))
  }

  function WithProductID(ctx: Context, productID: string): (r: Context)
    ensures r == Some(Current(ctx).(productID := productID))
  {
    match ctx
    case Some(ld) => Some(ld.(productID := productID))
    case None => Some(LogData("", "", productID, ""))
  }

  function WithProductName(ctx: Context, productName: string): (r: Context)
    ensures r == Some(Current(ctx).(productName := productName))
  {
    match ctx
    case Some(ld) => Some(ld.(productName := productName))
    case None => Some(LogData("", "", "", productName))
  }

  /** On a context without LogData, each With* yields a LogData holding only its own field. */
  lemma WithOnEmptyContext(u: string, s: string, p: string, n: string)
    ensures WithUserID(None, u) == Some(LogData(u, "", "", ""))
    ensures WithService(None, s) == Some(LogData("", s, "", ""))
    ensures WithProductID(None, p) == Some(LogData("", "", p, ""))
    ensures WithProductName(None, n) == Some(LogData("", "", "", n))
  {
  }

  /** Setting the same field twice keeps the second value only. */
  lemma WithLastWriterWins(ctx: Context, a: string, b: string)
    ensures WithUserID(WithUserID(ctx, a), b) == WithUserID(ctx, b)
    ensures WithService(WithService(ctx, a), b) == WithService(ctx, b)
    ensures WithProductID(WithProductID(ctx, a), b) == WithProductID(ctx, b)
    ensures WithProductName(WithProductName(ctx, a), b) == WithProductName(ctx, b)
  {
  }

  /** Setting two different fields gives the same context in either order. */
  lemma WithCommute(ctx: Context, u: string, s: string, p: string, n: string)
    ensures WithService(WithUserID(ctx, u), s) == WithUserID(WithService(ctx, s), u)
    ensures WithProductID(WithUserID(ctx, u), p) == WithUserID(WithProductID(ctx, p), u)
    ensures WithProductName(WithUserID(ctx, u), n) == WithUserID(WithProductName(ctx, n), u)
    ensures WithProductID(WithService(ctx, s), p) == WithService(WithProductID(ctx, p), s)
    ensures WithProductName(WithService(ctx, s), n) == WithService(WithProductName(ctx, n), s)
    ensures WithProductName(WithProductID(ctx, p), n) == WithProductID(WithProductName(ctx, n), p)
  {
  }

  /** One key/value attribute of a slog.Record. */
  datatype Attr = Attr(key: string, value: string)

  /** The four fields of a LogData as attributes, in the order Handle visits them. */
  function Fields(ld: LogData): seq<Attr> {
    [Attr("user_id", ld.userID), Attr("service", ld.service),
     Attr("product_id", ld.productID), Attr("product_name", ld.productName)]
  }

  /** The attributes whose value is not the empty string, in their original order. */
  function NonEmpty(attrs: seq<Attr>): (r: seq<Attr>)
    ensures |r| <= |attrs|
  {
    if attrs == [] then []
    else if attrs[0].value != "" then [attrs[0]] + NonEmpty(attrs[1..])
    else NonEmpty(attrs[1..])
  }

  /** NonEmpty keeps exactly the attributes with a non-empty value. */
  lemma {:induction false} NonEmptyMembers(attrs: seq<Attr>, a: Attr)
    ensures a in NonEmpty(attrs) <==> a in attrs && a.value != ""
  {
    if attrs != [] {
      NonEmptyMembers(attrs[1..], a);
      assert attrs == [attrs[0]] + attrs[1..];
    }
  }

  /** The attributes Handle adds for a context: none without LogData, else the non-empty fields. */
  function Attrs(ctx: Context): seq<Attr> {
    match ctx
    case None => []
    case Some(ld) => NonEmpty(Fields(ld))
  }

  /**
   * The attribute selection of MyJSONLogHandler.Handle: the record `rec`
   * gains one attribute per non-empty LogData field, each added in turn.
   */
  method Handle(ctx: Context, rec: seq<Attr>) returns (out: seq<Attr>)
    ensures out == rec + Attrs(ctx)
  {
    out := rec;
    if ctx.Some? {
      var ld := ctx.value;
      if ld.userID != "" {
        out := out + [Attr("user_id", ld.userID)];
      }
      ghost var s1 := out;
      if ld.service != "" {
        out := out + [Attr("service", ld.service)];
      }
      ghost var s2 := out;
      if ld.productID != "" {
        out := out + [Attr("product_id", ld.productID)];
      }
      ghost var s3 := out;
      if ld.productName != "" {
        out := out + [Attr("product_name", ld.productName)];
      }
      var a, b, c, d := Attr("user_id", ld.userID), Attr("service", ld.service),
                        Attr("product_id", ld.productID), Attr("product_name", ld.productName);
      assert s1 == rec + Keep(a);
      assert s2 == s1 + Keep(b);
      assert s3 == s2 + Keep(c);
      assert out == s3 + Keep(d);
      AppendFields(rec, ld);
    }
  }

  /** Adding the fields one at a time appends the selection as a whole. */
  lemma AppendFields(rec: seq<Attr>, ld: LogData)
    ensures rec + Keep(Attr("user_id", ld.userID)) + Keep(Attr("service", ld.service))
              + Keep(Attr("product_id", ld.productID)) + Keep(Attr("product_name", ld.productName))
            == rec + Attrs(Some(ld))
  {
    Regroup(rec, Keep(Attr("user_id", ld.userID)), Keep(Attr("service", ld.service)),
            Keep(Attr("product_id", ld.productID)), Keep(Attr("product_name", ld.productName)));
    NonEmptyOfFields(ld);
  }

  /** Appending four pieces one at a time is appending their right-nested concatenation. */
  lemma Regroup(r: seq<Attr>, w: seq<Attr>, x: seq<Attr>, y: seq<Attr>, z: seq<Attr>)
    ensures r + w + x + y + z == r + (w + (x + (y + z)))
  {
  }

  /** The attribute itself when its value is non-empty, else nothing. */
  function Keep(a: Attr): seq<Attr> {
    if a.value != "" then [a] else []
  }

  /** NonEmpty on a sequence that starts with `a`. */
  lemma NonEmptyCons(a: Attr, rest: seq<Attr>)
    ensures NonEmpty([a] + rest) == Keep(a) + NonEmpty(rest)
  {
    assert ([a] + rest)[1..] == rest;
  }

  /** The non-empty fields, unrolled one field at a time. */
  lemma NonEmptyOfFields(ld: LogData)
    ensures NonEmpty(Fields(ld)) ==
      Keep(Attr("user_id", ld.userID)) + (Keep(Attr("service", ld.service)) +
      (Keep(Attr("product_id", ld.productID)) + Keep(Attr("product_name", ld.productName))))
  {
    var a, b, c, d := Attr("user_id", ld.userID), Attr("service", ld.service),
                      Attr("product_id", ld.productID), Attr("product_name", ld.productName);
    var s3 := [d];
    var s2 := [c] + s3;
    var s1 := [b] + s2;
    var s0 := [a] + s1;
    assert s0 == Fields(ld);
    NonEmptyCons(d, []);
    assert [d] + [] == s3;
    NonEmptyCons(c, s3);
    NonEmptyCons(b, s2);
    NonEmptyCons(a, s1);
  }

  /** True when some attribute of `attrs` has key `key`. */
  predicate HasKey(attrs: seq<Attr>, key: string) {
    exists a :: a in attrs && a.key == key
  }

  /**
   * Handle adds attribute "user_id" (and likewise the other three) exactly
   * when that LogData field is non-empty, and then with that field's value.
   */
  lemma AttrsPresence(ld: LogData)
    ensures HasKey(Attrs(Some(ld)), "user_id") <==> ld.userID != ""
    ensures HasKey(Attrs(Some(ld)), "service") <==> ld.service != ""
    ensures HasKey(Attrs(Some(ld)), "product_id") <==> ld.productID != ""
    ensures HasKey(Attrs(Some(ld)), "product_name") <==> ld.productName != ""
    ensures forall a :: a in Attrs(Some(ld)) ==> a in Fields(ld) && a.value != ""
  {
    var f := Fields(ld);
    var r := Attrs(Some(ld));
    forall a | a in r ensures a in f && a.value != "" {
      NonEmptyMembers(f, a);
    }
    KeyPresence(ld, 0);
    KeyPresence(ld, 1);
    KeyPresence(ld, 2);
    KeyPresence(ld, 3);
  }

  /** The i-th LogData key is added exactly when the i-th field is non-empty. */
  lemma KeyPresence(ld: LogData, i: nat)
    requires i < 4
    ensures HasKey(Attrs(Some(ld)), Fields(ld)[i].key) <==> Fields(ld)[i].value != ""
  {
    var f := Fields(ld);
    var r := Attrs(Some(ld));
    NonEmptyMembers(f, f[i]);
    if HasKey(r, f[i].key) {
      var a :| a in r && a.key == f[i].key;
      NonEmptyMembers(f, a);
      assert a == f[0] || a == f[1] || a == f[2] || a == f[3];
      assert a == f[i];
    }
  }

  /** Handle adds nothing when the context holds no LogData. */
  lemma AttrsOfBareContext()
    ensures Attrs(None) == []
  {
  }

  /** Position of a LogData key in the order user_id, service, product_id, product_name. */
  function Rank(key: string): nat {
    if key == "user_id" then 0
    else if key == "service" then 1
    else if key == "product_id" then 2
    else 3
  }

  /** Keys appear in strictly increasing rank, so each at most once and in Handle's order. */
  predicate Ranked(attrs: seq<Attr>) {
    forall i, j :: 0 <= i < j < |attrs| ==> Rank(attrs[i].key) < Rank(attrs[j].key)
  }

  /** Dropping attributes keeps the rest in rank order. */
  lemma {:induction false} NonEmptyKeepsRank(attrs: seq<Attr>)
    requires Ranked(attrs)
    ensures Ranked(NonEmpty(attrs))
  {
    if attrs != [] {
      var rest := attrs[1..];
      assert Ranked(rest) by {
        forall i, j | 0 <= i < j < |rest| ensures Rank(rest[i].key) < Rank(rest[j].key) {
          assert rest[i] == attrs[i + 1] && rest[j] == attrs[j + 1];
        }
      }
      NonEmptyKeepsRank(rest);
      if attrs[0].value != "" {
        var tail := NonEmpty(rest);
        var r := [attrs[0]] + tail;
        forall i, j | 0 <= i < j < |r| ensures Rank(r[i].key) < Rank(r[j].key) {
          if i == 0 {
            var x := tail[j - 1];
            NonEmptyMembers(rest, x);
            var k :| 0 <= k < |rest| && rest[k] == x;
            assert attrs[k + 1] == x;
          } else {
            assert r[i] == tail[i - 1] && r[j] == tail[j - 1];
          }
        }
      }
    }
  }

  /** Handle adds at most one attribute per key, in the order user_id, service, product_id, product_name. */
  lemma AttrsInOrder(ctx: Context)
    ensures Ranked(Attrs(ctx))
    ensures |Attrs(ctx)| <= 4
  {
    if ctx.Some? {
      NonEmptyKeepsRank(Fields(ctx.value));
    }
  }
}
