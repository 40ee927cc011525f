/** The user record the auth handlers read and write: name, unique e-mail,
    stored password credential, role and last-login time. */
module UserModel {
  import opened Common

  /** The only role the server ever assigns. */
  const AdminRole: string := "admin"

  datatype User = User(name: string, email: string, password: string, role: string, lastLogin: Option<nat>)

  /** A user as `select('-password')` returns it: every field but the
      password. */
  datatype PublicUser = PublicUser(id: nat, name: string, email: string, role: string, lastLogin: Option<nat>)

  function WithoutPassword(id: nat, u: User): PublicUser {
    PublicUser(id, u.name, u.email, u.role, u.lastLogin)
  }
}
