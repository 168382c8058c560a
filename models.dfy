/** The records of repository/models, as the services and repositories use them. */
module Models {
  import opened Wrappers

  newtype Int32 = x: int | -0x8000_0000 <= x < 0x8000_0000

  /** Go's int32(x) conversion: keeps the low 32 bits, read as two's complement. */
  function ToInt32(x: int): (r: Int32)
    ensures -0x8000_0000 <= x < 0x8000_0000 ==> r as int == x
    ensures (x - r as int) % 0x1_0000_0000 == 0
  {
    ((x + 0x8000_0000) % 0x1_0000_0000 - 0x8000_0000) as Int32
  }

  /** A row of the users table (times are Unix seconds). */
  datatype User = User(
    id: int,
    firstName: string,
    lastName: string,
    email: string,
    passwordHash: string,
    lastLoginUtc: int,
    userTypeId: Int32)

  /** A *models.User the caller passes in and may see changed. */
  class UserRef {
    var user: User

    constructor (u: User)
      ensures user == u
    {
      user := u;
    }
  }

  datatype UserType = UserType(id: int, typeName: string, typeDescription: string, typeCode: string)

  /** A row of the items table; SoldPrice and Description are nullable. */
  datatype Item = Item(
    id: int,
    userId: int,
    title: string,
    initialPrice: real,
    soldPrice: Option<real>,
    description: Option<string>)

  datatype ItemComment = ItemComment(id: int, userId: int, itemId: int, comment: string, createdAt: int)

  /** A *models.ItemComment the caller passes in and may see changed. */
  class ItemCommentRef {
    var comment: ItemComment

    constructor (c: ItemComment)
      ensures comment == c
    {
      comment := c;
    }
  }
}
