/** What every statement keeps: the constraints of the schema, and the facts that never change. */
module Integrity {
  import opened Prelude
  import opened Tables

  lemma IndexOfUnique<T>(s: seq<T>, p: T -> bool, i: nat)
    requires i < |s| && p(s[i])
    requires forall j :: 0 <= j < |s| && j != i ==> !p(s[j])
    ensures IndexOf(s, p) == Some(i)
  {
  }

  lemma IndexOfPrefix<T>(s: seq<T>, t: seq<T>, p: T -> bool)
    requires s <= t && IndexOf(s, p).Some?
    ensures IndexOf(t, p) == IndexOf(s, p)
  {
    var i := IndexOf(s, p).value;
    assert forall j :: 0 <= j <= i ==> t[j] == s[j];
  }

  /** Look-ups by a stable property survive in-place changes. */
  lemma IndexOfKept<T>(s: seq<T>, t: seq<T>, p: T -> bool)
    requires |s| <= |t| && forall i :: 0 <= i < |s| ==> p(s[i]) == p(t[i])
    ensures IndexOf(s, p).Some? ==> IndexOf(t, p) == IndexOf(s, p)
    ensures |s| == |t| ==> IndexOf(t, p) == IndexOf(s, p)
  {
    var i := IndexOf(s, p);
    var k := IndexOf(t, p);
    if i.Some? {
      assert p(t[i.value]);
    }
    if k.Some? && k.value < |s| {
      assert p(s[k.value]);
    }
  }

  lemma FindAssetKept(db: Db, db': Db, w: nat, c: string)
    requires AssetsKept(db.assets, db'.assets)
    ensures FindAsset(db, w, c).Some? ==> FindAsset(db', w, c) == FindAsset(db, w, c)
    ensures |db.assets| == |db'.assets| ==> FindAsset(db', w, c) == FindAsset(db, w, c)
  {
    IndexOfKept(db.assets, db'.assets, AssetIs(w, c));
  }

  lemma FindWithdrawalKept(log: seq<Row>, log': seq<Row>, code: string)
    requires RowsKept(log, log')
    ensures FindWithdrawal(log, code).Some? ==> FindWithdrawal(log', code) == FindWithdrawal(log, code)
  {
    IndexOfKept(log, log', (r: Row) => r.gatewayRef == Some(code) && r.kind == Withdrawal);
  }

  lemma RefUsedKept(log: seq<Row>, log': seq<Row>, ref: string)
    requires RowsKept(log, log')
    ensures RefUsed(log, ref) ==> RefUsed(log', ref)
    ensures |log| == |log'| ==> RefUsed(log', ref) == RefUsed(log, ref)
  {
    IndexOfKept(log, log', RowHasReference(ref));
  }

  lemma RefUsedIff(log: seq<Row>, ref: string)
    ensures RefUsed(log, ref) <==> exists i :: 0 <= i < |log| && log[i].reference == ref
  {
  }

  lemma ExtendsTrans(a: Db, b: Db, c: Db)
    requires Extends(a, b) && Extends(b, c)
    ensures Extends(a, c)
  {
    forall i | 0 <= i < |a.log|
      ensures SameIdentity(a.log[i], c.log[i])
    {
      assert SameIdentity(a.log[i], b.log[i]) && SameIdentity(b.log[i], c.log[i]);
    }
  }

  lemma RowsHaveAssetsKept(db: Db, db': Db)
    requires RowsHaveAssets(db) && AssetsKept(db.assets, db'.assets) && RowsKept(db.log, db'.log)
    requires |db.log| == |db'.log|
    ensures RowsHaveAssets(db')
  {
    forall i | 0 <= i < |db'.log|
      ensures FindAsset(db', db'.log[i].walletId, db'.log[i].currency).Some?
    {
      assert SameIdentity(db.log[i], db'.log[i]);
      FindAssetKept(db, db', db.log[i].walletId, db.log[i].currency);
    }
  }

  lemma SetBalanceKeeps(db: Db, i: nat, x: real)
    requires Valid(db) && i < |db.assets|
    ensures var r := SetBalance(db, i, x); r.Ok? ==>
      Valid(r.value) && Extends(db, r.value) && r.value.log == db.log && |r.value.assets| == |db.assets|
  {
    if x >= 0.0 {
      RowsHaveAssetsKept(db, SetBalance(db, i, x).value);
    }
  }

  lemma CreateAssetKeeps(db: Db, w: nat, c: string, x: real)
    requires Valid(db)
    ensures var r := CreateAsset(db, w, c, x); r.Ok? ==>
      Valid(r.value) && Extends(db, r.value) && r.value.log == db.log && FindAsset(r.value, w, c) == Some(|db.assets|)
  {
    var r := CreateAsset(db, w, c, x);
    if r.Ok? {
      RowsHaveAssetsKept(db, r.value);
      assert r.value.assets[|db.assets|].walletId == w;
      IndexOfUnique(r.value.assets, AssetIs(w, c), |db.assets|);
    }
  }

  lemma UpsertKeeps(db: Db, w: nat, c: string, x: real)
    requires Valid(db)
    ensures var r := ExecStmt(db, Upsert(w, c, x)); r.Ok? ==>
      Valid(r.value) && Extends(db, r.value) && r.value.log == db.log && FindAsset(r.value, w, c).Some?
  {
    var i := FindAsset(db, w, c);
    if i.Some? {
      var y := db.assets[i.value].balance + x;
      SetBalanceKeeps(db, i.value, y);
      if y >= 0.0 {
        FindAssetKept(db, SetBalance(db, i.value, y).value, w, c);
      }
    } else {
      CreateAssetKeeps(db, w, c, x);
    }
  }

  lemma InsertRowKeeps(db: Db, row: Row)
    requires Valid(db) && FindAsset(db, row.walletId, row.currency).Some?
    requires row.gatewayRef.Some? <==> row.kind == Withdrawal
    ensures var r := ExecStmt(db, InsertRow(row)); r.Ok? ==>
      Valid(r.value) && Extends(db, r.value) && r.value.log == db.log + [row] && r.value.assets == db.assets
  {
    RefUsedIff(db.log, row.reference);
  }

  lemma SetStatusKeeps(db: Db, i: nat, s: Status)
    requires Valid(db)
    ensures var r := ExecStmt(db, SetStatus(i, s)); r.Ok? ==> Valid(r.value) && Extends(db, r.value)
  {
    var r := ExecStmt(db, SetStatus(i, s));
    if r.Ok? {
      RowsHaveAssetsKept(db, r.value);
    }
  }

  lemma MarkAllKeeps(db: Db, code: string, s: Status)
    requires Valid(db)
    ensures var r := ExecStmt(db, SetStatusByGateway(code, s)); r.Ok? && Valid(r.value) && Extends(db, r.value)
  {
    var db' := db.(log := MarkAll(db.log, code, s));
    assert RowsKept(db.log, db'.log);
    RowsHaveAssetsKept(db, db');
  }

  lemma RegisterKeeps(db: Db, st: Stmt)
    requires Valid(db) && (st.InsertUser? || st.InsertWallet? || st.InsertAsset?)
    ensures var r := ExecStmt(db, st); r.Ok? ==> Valid(r.value) && Extends(db, r.value) && r.value.log == db.log
  {
    if st.InsertAsset? {
      CreateAssetKeeps(db, st.walletId, st.currency, 0.0);
    } else {
      var r := ExecStmt(db, st);
      if r.Ok? {
        RowsHaveAssetsKept(db, r.value);
      }
    }
  }

  // ---- A batch unrolled

  lemma Batch1(db: Db, a: Stmt)
    ensures RunBatch(db, [a]) == ExecStmt(db, a)
  {
    assert [a][..0] == [];
  }

  lemma Batch2(db: Db, a: Stmt, b: Stmt)
    ensures RunBatch(db, [a, b]) == Then(ExecStmt(db, a), b)
  {
    assert [a, b][..1] == [a];
    Batch1(db, a);
  }

  lemma Batch4(db: Db, a: Stmt, b: Stmt, c: Stmt, d: Stmt)
    ensures RunBatch(db, [a, b, c, d]) == Then(Then(Then(ExecStmt(db, a), b), c), d)
  {
    assert [a, b, c, d][..3] == [a, b, c];
    assert [a, b, c][..2] == [a, b];
    Batch2(db, a, b);
  }
}
