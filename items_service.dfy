/**
 * services/items-service.go: the SELLER role gate in front of item creation, the
 * pass-through item operations, and the name under which an uploaded file is stored.
 */
module ItemsService {
  import opened Wrappers
  import opened Errors
  import opened Models
  import opened ItemStore

  const UploadPath := "./uploads"
  const SellerCode := "SELLER"

  /** The seller type id the loop of canUserAddItem ends with: int32 of the last SELLER id, 0 when there is none. */
  function SellerTypeId(types: seq<UserType>): Int32
    decreases |types|
  {
    if types == [] then 0
    else if types[|types| - 1].typeCode == SellerCode then ToInt32(types[|types| - 1].id)
    else SellerTypeId(types[..|types| - 1])
  }

  /** Several SELLER entries: the last one wins; none: the seller id stays 0. */
  lemma {:induction false} LastSellerWins(types: seq<UserType>)
    ensures (forall i :: 0 <= i < |types| ==> types[i].typeCode != SellerCode) ==> SellerTypeId(types) == 0
    ensures forall i :: 0 <= i < |types| && types[i].typeCode == SellerCode
                        && (forall j :: i < j < |types| ==> types[j].typeCode != SellerCode)
                        ==> SellerTypeId(types) == ToInt32(types[i].id)
    decreases |types|
  {
    if types != [] {
      var n := |types| - 1;
      var prefix := types[..n];
      LastSellerWins(prefix);
      if types[n].typeCode != SellerCode {
        assert forall i :: 0 <= i < n ==> prefix[i] == types[i];
      }
    }
  }

  /** canUserAddItem: the user's type id is the seller type id. */
  method CanUserAddItem(user: User, types: seq<UserType>) returns (ok: bool)
    ensures ok <==> user.userTypeId == SellerTypeId(types)
  {
    var sellerTypeId: Int32 := 0;
    for i := 0 to |types|
      invariant sellerTypeId == SellerTypeId(types[..i])
    {
      assert types[..i + 1][..i] == types[..i];
      if types[i].typeCode == SellerCode {
        sellerTypeId := ToInt32(types[i].id);
      }
    }
    assert types[..|types|] == types;
    ok := user.userTypeId == sellerTypeId;
  }

  /**
   * CreateItem: a failure to list user types is passed on, a non-seller gets
   * IncorrectUserRole, and in both cases the item table is left alone; a seller's item
   * is created by the repository.
   */
  method CreateItem(repo: ItemRepository, src: Item, user: User, userTypes: Result<seq<UserType>, ErrorKind>)
    returns (r: Result<Item, ErrorKind>)
    requires repo.Valid()
    modifies repo`items, repo`nextItemId
    ensures repo.Valid()
    ensures userTypes.Failure? ==> r == Failure(userTypes.error) && unchanged(repo)
    ensures userTypes.Success? && user.userTypeId != SellerTypeId(userTypes.value) ==>
              r == Failure(IncorrectUserRole) && unchanged(repo)
    ensures userTypes.Success? && user.userTypeId == SellerTypeId(userTypes.value) ==>
              && r == Success(Item(old(repo.nextItemId), src.userId, src.title, src.initialPrice, Some(0.0), src.description))
              && repo.items == old(repo.items)[old(repo.nextItemId) := r.value.(soldPrice := None)]
              && old(repo.nextItemId) !in old(repo.items)
              && repo.nextItemId == old(repo.nextItemId) + 1
  {
    if userTypes.Failure? {
      return Failure(userTypes.error);
    }
    var ok := CanUserAddItem(user, userTypes.value);
    if !ok {
      return Failure(IncorrectUserRole);
    }
    var item := repo.CreateItem(src);
    r := Success(item);
  }

  /** GetItemsList passes the repository's answer on. */
  method GetItemsList(repo: ItemRepository, userId: int) returns (r: seq<Item>)
    requires repo.Valid()
    ensures forall it :: it in r <==> Owns(repo.items, it.id, userId) && repo.items[it.id] == it
    ensures forall i, j :: 0 <= i < j < |r| ==> r[i].id != r[j].id
  {
    r := repo.GetItemsList(userId);
  }

  /** GetAllItems passes the repository's answer on. */
  method GetAllItems(repo: ItemRepository) returns (r: seq<Item>)
    requires repo.Valid()
    ensures forall it :: it in r <==> it.id in repo.items && repo.items[it.id] == it
    ensures forall i, j :: 0 <= i < j < |r| ==> r[i].id != r[j].id
  {
    r := repo.GetAllItems();
  }

  /** GetItemById passes arguments and result through. */
  function GetItemById(repo: ItemRepository, id: int, userId: int): (r: Result<Item, ErrorKind>)
    reads repo
    ensures r == repo.GetItemById(id, userId)
  {
    repo.GetItemById(id, userId)
  }

  /** UpdateItem passes arguments and result through. */
  method UpdateItem(repo: ItemRepository, id: int, src: Item, userId: int) returns (r: Item)
    requires repo.Valid()
    modifies repo`items
    ensures repo.Valid()
    ensures (repo.items, r) == UpdateRow(old(repo.items), id, src, userId)
  {
    r := repo.UpdateItem(id, src, userId);
  }

  /** DeleteItem passes arguments and result through. */
  method DeleteItem(repo: ItemRepository, id: int, userId: int) returns (err: Option<ErrorKind>)
    requires repo.Valid()
    modifies repo`items
    ensures repo.Valid()
    ensures (repo.items, err) == DeleteRow(old(repo.items), id, userId)
  {
    err := repo.DeleteItem(id, userId);
  }

  /** CreateItemComment passes arguments and result through. */
  method CreateItemComment(repo: ItemRepository, c: ItemCommentRef, now: int) returns (r: ItemComment)
    requires repo.Valid()
    modifies repo`comments, repo`nextCommentId, c
    ensures repo.Valid()
    ensures c.comment == old(c.comment).(createdAt := now)
    ensures r == c.comment.(id := old(repo.nextCommentId)) && repo.comments == old(repo.comments)[r.id := r]
  {
    r := repo.CreateItemComment(c, now);
  }

  // Decimal rendering of an int, as fmt's %d writes it.

  predicate IsDigit(ch: char) {
    '0' <= ch <= '9'
  }

  function DigitChar(d: nat): (ch: char)
    requires d < 10
    ensures IsDigit(ch) && ch as int - '0' as int == d
  {
    "0123456789"[d]
  }

  function NatToString(n: nat): (s: string)
    ensures |s| >= 1 && forall i :: 0 <= i < |s| ==> IsDigit(s[i])
    ensures n < 10 <==> |s| == 1
  {
    if n < 10 then [DigitChar(n)] else NatToString(n / 10) + [DigitChar(n % 10)]
  }

  function IntToString(n: int): (s: string)
    ensures |s| >= 1 && forall i :: 0 <= i < |s| ==> s[i] == '-' || IsDigit(s[i])
  {
    if n < 0 then "-" + NatToString(-n) else NatToString(n)
  }

  /** Distinct numbers have distinct decimal renderings. */
  lemma {:induction false} NatToStringInjective(a: nat, b: nat)
    requires NatToString(a) == NatToString(b)
    ensures a == b
    decreases a
  {
    var s := NatToString(a);
    assert DigitChar(a % 10) == s[|s| - 1] == DigitChar(b % 10);
    if 10 <= a {
      assert 10 <= b;
      assert NatToString(a / 10) == s[..|s| - 1] == NatToString(b / 10);
      NatToStringInjective(a / 10, b / 10);
    }
  }

  lemma IntToStringInjective(a: int, b: int)
    requires IntToString(a) == IntToString(b)
    ensures a == b
  {
    assert a < 0 <==> IntToString(a)[0] == '-';
    assert b < 0 <==> IntToString(b)[0] == '-';
    if a < 0 {
      assert NatToString(-a) == IntToString(a)[1..] == NatToString(-b);
      NatToStringInjective(-a, -b);
    } else {
      NatToStringInjective(a, b);
    }
  }

  /** fmt.Sprintf("%d_%s", itemId, filename): the name the file is stored under. */
  function StoredFileName(itemId: int, filename: string): string {
    IntToString(itemId) + "_" + filename
  }

  /** Position of the first '_' in s, or |s| when there is none. */
  function UnderscoreIndex(s: string): (k: nat)
    ensures k <= |s|
  {
    if s == [] || s[0] == '_' then 0 else 1 + UnderscoreIndex(s[1..])
  }

  lemma {:induction false} UnderscoreAfter(x: string, rest: string)
    requires forall i :: 0 <= i < |x| ==> x[i] != '_'
    ensures UnderscoreIndex(x + "_" + rest) == |x|
    decreases |x|
  {
    if x != [] {
      assert (x + "_" + rest)[1..] == x[1..] + "_" + rest;
      UnderscoreAfter(x[1..], rest);
    }
  }

  /** Two uploads get the same stored name only when item id and original filename both agree. */
  lemma StoredFileNameInjective(i: int, f: string, j: int, g: string)
    requires StoredFileName(i, f) == StoredFileName(j, g)
    ensures i == j && f == g
  {
    var s, t := IntToString(i), IntToString(j);
    var name := StoredFileName(i, f);
    UnderscoreAfter(s, f);
    UnderscoreAfter(t, g);
    assert s == name[..|s|] == t;
    IntToStringInjective(i, j);
    assert f == name[|s| + 1..] == g;
  }

  /**
   * Outcomes of the foreign steps of AttachFileToItem, in the order they run (None is
   * success): opening the upload, ensuring the directory, creating the destination,
   * copying, and recording the name with the item.
   */
  datatype FileSteps = FileSteps(
    open: Option<ErrorKind>,
    ensureDir: Option<ErrorKind>,
    create: Option<ErrorKind>,
    copy: Option<ErrorKind>,
    attach: Option<ErrorKind>)

  /**
   * AttachFileToItem: each step runs only when every earlier one succeeded, and the first
   * failure is returned as it is; when all succeed, the full path of the stored file is.
   */
  function AttachFileToItem(itemId: int, filename: string, steps: FileSteps): (r: Result<string, ErrorKind>)
    ensures steps.open.Some? ==> r == Failure(steps.open.value)
    ensures steps.open.None? && steps.ensureDir.Some? ==> r == Failure(steps.ensureDir.value)
    ensures steps.open.None? && steps.ensureDir.None? && steps.create.Some? ==> r == Failure(steps.create.value)
    ensures steps.open.None? && steps.ensureDir.None? && steps.create.None? && steps.copy.Some?
            ==> r == Failure(steps.copy.value)
    ensures steps.open.None? && steps.ensureDir.None? && steps.create.None? && steps.copy.None? && steps.attach.Some?
            ==> r == Failure(steps.attach.value)
    ensures r.Success? <==> steps == FileSteps(None, None, None, None, None)
    ensures r.Success? ==> r.value == UploadPath + "/" + StoredFileName(itemId, filename)
  {
    if steps.open.Some? then Failure(steps.open.value)
    else if steps.ensureDir.Some? then Failure(steps.ensureDir.value)
    else if steps.create.Some? then Failure(steps.create.value)
    else if steps.copy.Some? then Failure(steps.copy.value)
    else if steps.attach.Some? then Failure(steps.attach.value)
    else Success(UploadPath + "/" + StoredFileName(itemId, filename))
  }

  /** Successful attachments of different (item, filename) pairs return different paths. */
  lemma AttachedPathsDiffer(i: int, f: string, j: int, g: string, steps: FileSteps, steps': FileSteps)
    requires AttachFileToItem(i, f, steps).Success? && AttachFileToItem(j, g, steps').Success?
    requires AttachFileToItem(i, f, steps).value == AttachFileToItem(j, g, steps').value
    ensures i == j && f == g
  {
    var p := AttachFileToItem(i, f, steps).value;
    var k := |UploadPath| + 1;
    assert StoredFileName(i, f) == p[k..] == StoredFileName(j, g);
    StoredFileNameInjective(i, f, j, g);
  }
}
