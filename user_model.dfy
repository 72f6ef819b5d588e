/** Users, the requests that create or authenticate them, and the profile that
    is sent back (src/models/user.rs). */
module UserModel {
  import opened Common

  datatype User = User(id: string, name: string, email: string, passwordHash: string,
                       createdAt: Time, updatedAt: Time)

  datatype CreateUserRequest = CreateUserRequest(name: string, email: string, password: string)

  datatype LoginRequest = LoginRequest(email: string, password: string)

  /** The profile a client sees: a user without its password hash. */
  datatype UserResponse = UserResponse(id: string, name: string, email: string,
                                       createdAt: Time, updatedAt: Time)

  datatype AuthResponse = AuthResponse(token: string, user: UserResponse)

  /** `User::new`: a fresh id, the given fields, both stamps set to the same instant. */
  function NewUser(name: string, email: string, passwordHash: string, freshId: string, now: Time): (u: User)
    ensures u.id == freshId
    ensures u.name == name && u.email == email && u.passwordHash == passwordHash
    ensures u.createdAt == now && u.updatedAt == u.createdAt
  {
    User(freshId, name, email, passwordHash, now, now)
  }

  /** `From<User> for UserResponse`: the profile drops the hash and nothing else. */
  function ToResponse(u: User): (r: UserResponse)
  {
    UserResponse(u.id, u.name, u.email, u.createdAt, u.updatedAt)
  }

  /** Puts a hash back into a profile: the inverse of `ToResponse`. */
  function WithHash(r: UserResponse, passwordHash: string): User
  {
    User(r.id, r.name, r.email, passwordHash, r.createdAt, r.updatedAt)
  }

  /** The profile keeps every field but the hash: adding the hash back gives the user. */
  lemma ResponseDropsOnlyHash(u: User)
    ensures WithHash(ToResponse(u), u.passwordHash) == u
    ensures ToResponse(u).id == u.id && ToResponse(u).email == u.email
  {
  }

  /** Two users with the same profile differ at most in their hash, so the
      profile reveals nothing about the hash. */
  lemma ResponseIndependentOfHash(u: User, h: string)
    ensures ToResponse(u.(passwordHash := h)) == ToResponse(u)
  {
  }
}
