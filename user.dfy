/** The User entity and its mutators. */
module UserEntity {
  import opened Wrappers
  import opened Domain

  class User {
    var name: string
    var email: string
    var profileImageUrl: Option<string>
    var isActive: bool
    var role: Role

    /** The builder constructor: fields as given, a null role read as
        ROLE_USER, and the account active. */
    constructor (name: string, email: string, profileImageUrl: Option<string>, role: Option<Role>)
      ensures this.name == name && this.email == email && this.profileImageUrl == profileImageUrl
      ensures this.role == (if role.Some? then role.value else RoleUser)
      ensures isActive
    {
      this.name := name;
      this.email := email;
      this.profileImageUrl := profileImageUrl;
      this.role := if role.Some? then role.value else RoleUser;
      this.isActive := true;
    }

    /** updateName: only the name changes. */
    method UpdateName(newName: string)
      modifies this
      ensures name == newName
      ensures email == old(email) && profileImageUrl == old(profileImageUrl)
      ensures isActive == old(isActive) && role == old(role)
    {
      name := newName;
    }

    /** softDelete: the account becomes inactive and nothing else changes. */
    method SoftDelete()
      modifies this
      ensures !isActive
      ensures name == old(name) && email == old(email)
      ensures profileImageUrl == old(profileImageUrl) && role == old(role)
    {
      isActive := false;
    }

    /** updateProfileImage: only the image URL changes; null clears it. */
    method UpdateProfileImage(newImageUrl: Option<string>)
      modifies this
      ensures profileImageUrl == newImageUrl
      ensures name == old(name) && email == old(email)
      ensures isActive == old(isActive) && role == old(role)
    {
      profileImageUrl := newImageUrl;
    }
  }
}
