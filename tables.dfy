// The rows of the database (app/models/*.py) and an in-memory database
// holding one sequence per table, in insertion order. Timestamps are
// plain numbers supplied by the caller; Decimal amounts are integer cents.

module Tables {
  import opened Common
  import Sanitizer

  type Time = int   // an instant, in seconds
  type Date = int   // a calendar day in the Asia/Taipei zone

  /** `timedelta(days=1)` in the unit of `Time`. */
  const Day: int := 86400

  datatype GroupStatus = GroupPending | GroupActive | GroupSuspended | GroupInactive
  datatype ApplicationStatus = AppPending | AppApproved | AppRejected | AppArchived
  datatype SessionStatus = Ordering | Ended
  datatype PaymentStatus = Unpaid | Paid | Refunded
  datatype Scope = GlobalScope | GroupScope | OtherScope(name: string)
  datatype Role = UserRole | AssistantRole | SystemRole

  datatype Group = Group(
    id: Id, lineGroupId: string, name: Option<string>, description: Option<string>,
    groupCode: Option<string>, status: GroupStatus)

  datatype Application = Application(
    id: Id, lineGroupId: string, groupName: Option<string>, contactInfo: Option<string>,
    groupCode: Option<string>, status: ApplicationStatus, createdAt: Time,
    reviewedAt: Option<Time>, reviewNote: Option<string>)

  datatype Membership = Membership(groupId: Id, userId: Id)
  datatype AdminBinding = AdminBinding(groupId: Id, userId: Id)

  datatype User = User(
    id: Id, lineUserId: string, displayName: Option<string>,
    isBanned: bool, bannedAt: Option<Time>, createdAt: Time)

  datatype Store = Store(
    id: Id, name: string, isActive: bool, scope: Scope, groupCode: Option<string>)

  datatype Menu = Menu(id: Id, storeId: Id)
  datatype Category = Category(id: Id, menuId: Id, name: string, sortOrder: int)
  datatype Variant = Variant(name: string, price: int)
  datatype Promo = Promo(kind: string, labelText: Option<string>, value: Option<int>)
  datatype MenuItem = MenuItem(
    id: Id, categoryId: Id, name: string, price: int, description: Option<string>,
    isAvailable: bool, variants: seq<Variant>, promo: Option<Promo>, sortOrder: int)

  datatype TodayStore = TodayStore(groupId: Id, storeId: Id, date: Date, setBy: Option<Id>)

  datatype Session = Session(
    id: Id, groupId: Id, status: SessionStatus, startedBy: Option<Id>,
    endedAt: Option<Time>, endedBy: Option<Id>, createdAt: Time)

  datatype Order = Order(
    id: Id, sessionId: Id, userId: Id, storeId: Id, totalAmount: int,
    paymentStatus: PaymentStatus, paidAmount: int, paidAt: Option<Time>)

  datatype OrderItem = OrderItem(
    id: Id, orderId: Id, name: string, quantity: int, unitPrice: int, subtotal: int, note: string)

  datatype ChatMessage = ChatMessage(
    id: Id, groupId: Option<Id>, userId: Option<Id>, sessionId: Option<Id>,
    role: Role, content: string, createdAt: Time, createdDate: Date)

  datatype SecurityLog = SecurityLog(
    id: Id, lineUserId: string, lineGroupId: Option<string>,
    reasons: seq<Sanitizer.Reason>, createdAt: Time)

  datatype Prompt = Prompt(name: string, content: string)
  datatype SuperAdmin = SuperAdmin(username: string, passwordHash: string)

  /** The database: one sequence of rows per table, plus the generator of
      fresh primary keys. */
  class Database {
    var nextId: nat
    var groups: seq<Group>
    var applications: seq<Application>
    var members: seq<Membership>
    var admins: seq<AdminBinding>
    var users: seq<User>
    var stores: seq<Store>
    var menus: seq<Menu>
    var categories: seq<Category>
    var menuItems: seq<MenuItem>
    var todayStores: seq<TodayStore>
    var sessions: seq<Session>
    var orders: seq<Order>
    var orderItems: seq<OrderItem>
    var chatMessages: seq<ChatMessage>
    var securityLogs: seq<SecurityLog>
    var prompts: seq<Prompt>
    var superAdmins: seq<SuperAdmin>

    constructor ()
      ensures nextId == 0
      ensures groups == [] && applications == [] && members == [] && admins == []
      ensures users == [] && stores == [] && menus == [] && categories == [] && menuItems == []
      ensures todayStores == [] && sessions == [] && orders == [] && orderItems == []
      ensures chatMessages == [] && securityLogs == [] && prompts == [] && superAdmins == []
    {
      nextId := 0;
      groups := [];
      applications := [];
      members := [];
      admins := [];
      users := [];
      stores := [];
      menus := [];
      categories := [];
      menuItems := [];
      todayStores := [];
      sessions := [];
      orders := [];
      orderItems := [];
      chatMessages := [];
      securityLogs := [];
      prompts := [];
      superAdmins := [];
    }

    /** A primary key never handed out before. */
    method FreshId() returns (id: Id)
      modifies this`nextId
      ensures id == old(nextId) && nextId == id + 1
    {
      id := nextId;
      nextId := nextId + 1;
    }
  }
}
